/** What exactly is marked when a scan comes to the members of an object through a reference: the
    reach of the pointers that the collector follows. */
module Jumps {
  import opened Heap
  import opened Tracing
  import opened Exactness

  // ----- the heap as the collector follows it -----

  function Tops(g: Graph, vs: seq<Value>): (r: seq<Value>)
    requires g.Valid() && Items(g, vs)
    ensures |r| == |vs| && Items(g, r) && forall i :: 0 <= i < |r| ==> r[i] == Top(g, vs[i])
  {
    seq(|vs|, i requires 0 <= i < |vs| => Top(g, vs[i]))
  }

  /** The entries of a table, each led to its most derived part. */
  function TopSlots(g: Graph, slots: seq<Slot>): (r: seq<Slot>)
    requires g.Valid() && Items(g, ValuesOf(slots))
    ensures |r| == |slots| && ValuesOf(r) == Tops(g, ValuesOf(slots))
  {
    seq(|slots|, i requires 0 <= i < |slots| => Slot(slots[i].key, Top(g, ValuesOf(slots)[i])))
  }

  ghost function JumpBody(g: Graph, tops: set<Managed>, o: Managed): Body
    requires g.Valid() && o in g.body
  {
    assert g.ValidAt(o);
    match g.body[o]
    case Table(slots) => if o in tops then Table(TopSlots(g, slots)) else g.body[o]
    case Vector(managed, items) => Vector(managed, Tops(g, items))
    case b => b
  }

  /** Vectors and the tables in tops lead to the most derived parts of what they hold. */
  ghost function Jumped(g: Graph, tops: set<Managed>): Graph
    requires g.Valid()
  {
    Graph(map o | o in g.body :: JumpBody(g, tops, o), g.rank)
  }

  lemma JumpedIsValid(g: Graph, tops: set<Managed>)
    requires g.Valid()
    ensures Jumped(g, tops).Valid()
  {
    var h := Jumped(g, tops);
    forall o | o in h.body ensures h.ValidAt(o) {
      assert g.ValidAt(o);
      SameShape(g, h, o, tops);
    }
  }

  lemma SameShape(g: Graph, h: Graph, o: Managed, tops: set<Managed>)
    requires g.Valid() && h == Jumped(g, tops) && o in g.body && g.ValidAt(o)
    ensures h.ValidAt(o)
  {
    forall v: Value | g.Item(v) ensures h.Item(v) {
    }
    match g.body[o] {
      case Table(slots) =>
        forall i | 0 <= i < |slots| ensures h.Item(h.body[o].slots[i].value) {
          assert ValuesOf(h.body[o].slots)[i] == h.body[o].slots[i].value;
        }
      case _ =>
    }
  }

  /** The tables whose entries are followed from their most derived parts. */
  ghost function TopTargets(g: Graph, s: set<Managed>, globals: Managed): set<Managed> {
    set t | t in g.body && TopTarget(g, s, globals, t)
  }

  lemma TopsAreSuccessors(g: Graph, s: set<Managed>, vs: seq<Value>)
    requires g.Valid() && Items(g, vs)
    ensures AllRefs(Tops(g, vs)) <= s <==> TopsIn(g, s, vs)
  {
    if AllRefs(Tops(g, vs)) <= s {
      forall i | 0 <= i < |vs| ensures Refs(Top(g, vs[i])) <= s {
        assert Refs(Tops(g, vs)[i]) <= AllRefs(Tops(g, vs));
      }
    }
  }

  /** Members of objects are only followed as they are, but for those in t: locals and globals have
      tables of their own, and every reference leads to one of these or to t. */
  ghost predicate OnlyInto(g: Graph, s: set<Managed>, globals: Managed, t: Managed) {
    forall o :: o in s && o in g.body && g.body[o].Part? && g.body[o].variables != null && g.body[o].variables != t
      ==> !TopTarget(g, s, globals, g.body[o].variables)
  }

  // ----- from above -----

  lemma JumpedOpen(g: Graph, all: set<Managed>, globals: Managed, s: set<Managed>, m: set<Managed>, t: Managed?)
    requires g.Valid() && g.TableOrNull(t) && Closed(Jumped(g, TopTargets(g, all, globals)), s) && Opt(t) <= s
    requires t != null ==> TopTarget(g, all, globals, t)
    ensures Open(g, s, m, t, true)
  {
    if t != null {
      var h := Jumped(g, TopTargets(g, all, globals));
      assert Successors(h.body[t]) <= s && g.ValidAt(t);
      TopsAreSuccessors(g, s, ValuesOf(g.body[t].slots));
    }
  }

  lemma JumpedOpenAsIs(g: Graph, all: set<Managed>, globals: Managed, s: set<Managed>, m: set<Managed>, t: Managed?)
    requires g.Valid() && g.TableOrNull(t) && Closed(Jumped(g, TopTargets(g, all, globals)), s) && Opt(t) <= s
    requires t != null ==> !TopTarget(g, all, globals, t)
    ensures Open(g, s, m, t, false)
  {
    if t != null {
      var h := Jumped(g, TopTargets(g, all, globals));
      assert Successors(h.body[t]) <= s && h.body[t] == g.body[t];
    }
  }

  /** A set closed under the jumps confines scans, once t is marked or when t is not in it. */
  lemma JumpedConfines(g: Graph, all: set<Managed>, globals: Managed, t: Managed, s: set<Managed>, m: set<Managed>)
    requires g.Valid() && Closed(Jumped(g, TopTargets(g, all, globals)), s) && s <= all
    requires OnlyInto(g, all, globals, t) && (t in m || t !in s)
    ensures Confines(g, s, m)
  {
    var h := Jumped(g, TopTargets(g, all, globals));
    forall o | o in s ensures Follows(g, s, m, o) {
      assert o in h.body && g.ValidAt(o) && Successors(h.body[o]) <= s;
      match g.body[o] {
        case Part(_, vars, _) => if vars != t { JumpedOpenAsIs(g, all, globals, s, m, vars); }
        case TableReference(x) => JumpedOpen(g, all, globals, s, m, x);
        case Vector(managed, items) => if managed { TopsAreSuccessors(g, s, items); }
        case Frame(_, _, locals, _, _) => JumpedOpen(g, all, globals, s, m, locals);
        case _ =>
      }
    }
  }

  /** Jumps lead to nothing that pointers do not lead to. */
  lemma JumpsInside(g: Graph, tops: set<Managed>, s: set<Managed>)
    requires g.Valid() && Closed(g, s)
    ensures Closed(Jumped(g, tops), s)
  {
    var h := Jumped(g, tops);
    ClosedChildren(g, s);
    forall o | o in s ensures Successors(h.body[o]) <= s {
      assert Successors(g.body[o]) <= s && g.ValidAt(o);
      match g.body[o] {
        case Table(slots) =>
          TopsInside(g, s, ValuesOf(slots));
          TopsAreSuccessors(g, s, ValuesOf(slots));
        case Vector(managed, items) =>
          if managed {
            TopsInside(g, s, items);
            TopsAreSuccessors(g, s, items);
          }
        case _ =>
      }
    }
  }

  // ----- where a scan enters t -----

  /** A reference in a cell of the operand stack, or the last result of the current frame. */
  datatype Entry = Cell(i: nat) | LastResult

  predicate Refers(g: Graph, v: Value, t: Managed) {
    v.Ref? && v.item in g.body && g.body[v.item] == TableReference(t)
  }

  /** What is scanned before. */
  ghost function Earlier(roots: Roots, e: Entry): set<Managed>
    requires e.Cell? ==> e.i <= |roots.stack|
  {
    match e
    case Cell(i) => AllRefs(roots.stack[..i])
    case LastResult => AllRefs(roots.stack) + Refs(roots.exception) + {roots.globals}
  }

  /** The scan comes to table t through a reference: nothing scanned before leads there. */
  ghost predicate EntersThrough(g: Graph, roots: Roots, e: Entry, t: Managed)
    requires roots.Valid(g)
  {
    && (match e
        case Cell(i) => i < |roots.stack| && Refers(g, roots.stack[i], t)
        case LastResult => roots.frame != null && Refers(g, g.body[roots.frame].lastResult, t))
    && t !in Reach(g, Earlier(roots, e))
  }

  lemma EarlierInside(g: Graph, roots: Roots, e: Entry)
    requires roots.Valid(g) && (e.Cell? ==> e.i <= |roots.stack|)
    ensures Earlier(roots, e) <= roots.Objects() && Earlier(roots, e) <= g.body.Keys
  {
  }

  lemma {:induction false} ScanInTurn(g: Graph, m: set<Managed>, a: seq<Value>, b: seq<Value>, top: bool)
    requires g.Valid() && Items(g, a) && Items(g, b)
    ensures Items(g, a + b) && ScanValues(g, m, a + b, top) == ScanValues(g, ScanValues(g, m, a, top), b, top)
    decreases |a|
  {
    if a == [] {
      assert a + b == b;
    } else {
      assert (a + b)[1..] == a[1..] + b;
      ScanInTurn(g, ScanItem(g, m, if top then Top(g, a[0]) else a[0]), a[1..], b, top);
    }
  }

  /** Behind a reference that is scanned first, t is marked and only then its entries followed. */
  lemma ThroughReference(g: Graph, s: set<Managed>, m: set<Managed>, v: Value, t: Managed)
    requires g.Valid() && g.Item(v) && Refers(g, v, t) && t !in m && v.item !in m
    requires m <= s && Refs(v) <= s && t in s && Confines(g, s, m + {t}) && Open(g, s, {}, t, true)
    ensures ScanItem(g, m, v) <= s && t in ScanItem(g, m, v) && Confines(g, s, ScanItem(g, m, v))
  {
    assert g.ValidAt(v.item);
    ScanValuesInside(g, s, m + {t}, ValuesOf(g.body[t].slots), true);
    assert ScanTable(g, m, t, true) == ScanValues(g, m + {t}, ValuesOf(g.body[t].slots), true);
    assert ScanItem(g, m, v) == ScanTable(g, m, t, true) + {v.item};
    ConfinesMore(g, s, m + {t}, ScanItem(g, m, v));
  }

  /** When t is entered through a reference, the entries of t need not be confined but for their most
      derived parts: q is where the scan stays before that. */
  lemma EnteredInside(g: Graph, roots: Roots, e: Entry, t: Managed, q: set<Managed>, s: set<Managed>)
    requires roots.Valid(g) && EntersThrough(g, roots, e, t) && roots.Objects() <= s && q <= s && t in s
    requires Earlier(roots, e) <= q && q <= Reach(g, Earlier(roots, e)) && Confines(g, q, {})
    requires Confines(g, s, {t}) && Open(g, s, {}, t, true) && Open(g, s, {t}, roots.globals, true)
    requires e.LastResult? ==> Open(g, q, {}, roots.globals, true)
    ensures ScanRoots(g, roots) <= s
  {
    match e {
      case Cell(i) => EnteredFromStack(g, roots, i, t, q, s);
      case LastResult => EnteredFromFrame(g, roots, t, q, s);
    }
  }

  lemma NotYet(g: Graph, e: set<Managed>, v: Value, t: Managed, m: set<Managed>)
    requires g.Valid() && e <= g.body.Keys && Refers(g, v, t) && m <= Reach(g, e) && t !in Reach(g, e)
    ensures t !in m && v.item !in m
  {
    ReachIsClosed(g, e);
    assert t in Successors(g.body[v.item]);
  }

  lemma EnteredFromStack(g: Graph, roots: Roots, i: nat, t: Managed, q: set<Managed>, s: set<Managed>)
    requires roots.Valid(g) && EntersThrough(g, roots, Cell(i), t) && roots.Objects() <= s && q <= s && t in s
    requires Earlier(roots, Cell(i)) <= q && q <= Reach(g, Earlier(roots, Cell(i))) && Confines(g, q, {})
    requires Confines(g, s, {t}) && Open(g, s, {}, t, true) && Open(g, s, {t}, roots.globals, true)
    ensures ScanRoots(g, roots) <= s
  {
    var stack := roots.stack;
    var before, rest := stack[..i], stack[i + 1..];
    assert stack == before + stack[i..] && stack[i..][1..] == rest && stack[i..][0] == stack[i];
    var m0 := ScanValues(g, {}, before, false);
    ScanValuesInside(g, q, {}, before, false);
    EarlierInside(g, roots, Cell(i));
    NotYet(g, Earlier(roots, Cell(i)), stack[i], t, m0);
    assert stack[i].item in AllRefs(stack);
    ConfinesMore(g, s, {t}, m0 + {t});
    ThroughReference(g, s, m0, stack[i], t);
    var m1 := ScanItem(g, m0, stack[i]);
    assert AllRefs(rest) <= AllRefs(stack);
    ScanValuesInside(g, s, m1, rest, false);
    var m2 := ScanValues(g, m1, rest, false);
    ScanInTurn(g, {}, before, stack[i..], false);
    assert m2 == ScanValues(g, {}, stack, false);
    ConfinesMore(g, s, m1, m2);
    AfterStack(g, roots, s, m2);
  }

  lemma EnteredFromFrame(g: Graph, roots: Roots, t: Managed, q: set<Managed>, s: set<Managed>)
    requires roots.Valid(g) && EntersThrough(g, roots, LastResult, t) && roots.Objects() <= s && q <= s && t in s
    requires Earlier(roots, LastResult) <= q && q <= Reach(g, Earlier(roots, LastResult)) && Confines(g, q, {})
    requires Confines(g, s, {t}) && Open(g, s, {}, t, true) && Open(g, q, {}, roots.globals, true)
    ensures ScanRoots(g, roots) <= s
  {
    var f := roots.frame;
    var m := BeforeFrame(g, roots, q);
    var v := g.body[f].lastResult;
    assert Follows(g, s, {t}, f);
    EarlierInside(g, roots, LastResult);
    NotYet(g, Earlier(roots, LastResult), v, t, m);
    FrameNotYet(g, Earlier(roots, LastResult), f, t);
    ConfinesMore(g, s, {t}, m + {f} + {t});
    ThroughReference(g, s, m + {f}, v, t);
    AfterLastResult(g, s, m, f);
    var m' := ScanOneFrame(g, m, f);
    ConfinesMore(g, s, {t}, m' + {t});
    assert m' + {t} == m';
    ScanFrameInside(g, s, m', g.body[f].previous);
  }

  lemma FrameNotYet(g: Graph, e: set<Managed>, f: Managed, t: Managed)
    requires g.Valid() && e <= g.body.Keys && g.FrameOrNull(f) && Refers(g, g.body[f].lastResult, t)
      && t !in Reach(g, e)
    ensures f !in Reach(g, e)
  {
    ReachIsClosed(g, e);
    var r := g.body[f].lastResult.item;
    assert r in Successors(g.body[f]) && t in Successors(g.body[r]);
  }

  lemma BeforeFrame(g: Graph, roots: Roots, q: set<Managed>) returns (m: set<Managed>)
    requires roots.Valid(g) && Earlier(roots, LastResult) <= q && Confines(g, q, {})
    requires Open(g, q, {}, roots.globals, true)
    ensures m <= q && ScanRoots(g, roots) == ScanFrame(g, m, roots.frame)
  {
    var m1 := ScanValues(g, {}, roots.stack, false);
    ScanValuesInside(g, q, {}, roots.stack, false);
    ConfinesMore(g, q, {}, m1);
    var m2 := ScanItem(g, m1, roots.exception);
    ScanItemInside(g, q, m1, roots.exception);
    ConfinesMore(g, q, {}, m2);
    ScanTableInside(g, q, m2, roots.globals, true);
    m := ScanTable(g, m2, roots.globals, true);
  }

  // ----- from below -----

  lemma DoneChildren(g: Graph, s: set<Managed>, globals: Managed, m: set<Managed>)
    requires g.Valid() && DoneBut(g, s, globals, m, {})
    ensures ChildrenIn(g, m)
  {
    forall o | o in m && IsPart(g, o) ensures Refs(g.body[o].child) <= m {
      assert Done(g, s, globals, m, o);
    }
  }

  /** What a finished scan has marked is closed under jumps. */
  lemma DoneIsJumpClosed(g: Graph, s: set<Managed>, globals: Managed, m: set<Managed>)
    requires g.Valid() && DoneBut(g, s, globals, m, {})
    ensures Closed(Jumped(g, TopTargets(g, s, globals)), m)
  {
    var h := Jumped(g, TopTargets(g, s, globals));
    DoneChildren(g, s, globals, m);
    forall o | o in m ensures o in h.body && Successors(h.body[o]) <= m {
      assert Done(g, s, globals, m, o) && g.ValidAt(o);
      match g.body[o] {
        case Table(slots) =>
          if AllRefs(ValuesOf(slots)) <= m { TopsInside(g, m, ValuesOf(slots)); }
          TopsAreSuccessors(g, m, ValuesOf(slots));
        case Vector(managed, items) => if managed { TopsAreSuccessors(g, m, items); }
        case _ =>
      }
    }
  }

  // ----- exactly -----

  lemma JumpReach(g: Graph, roots: Roots) returns (h: Graph, all: set<Managed>, s: set<Managed>)
    requires roots.Valid(g)
    ensures all == Reach(g, roots.Objects()) && h == Jumped(g, TopTargets(g, all, roots.globals))
    ensures s == Reach(h, roots.Objects()) && s <= all && Closed(g, all) && Closed(h, s) && roots.Objects() <= s
    ensures h.Valid()
  {
    all := Reach(g, roots.Objects());
    h := Jumped(g, TopTargets(g, all, roots.globals));
    s := Reach(h, roots.Objects());
    ReachIsClosed(g, roots.Objects());
    JumpedIsValid(g, TopTargets(g, all, roots.globals));
    ReachIsClosed(h, roots.Objects());
    JumpsInside(g, TopTargets(g, all, roots.globals), all);
    ReachIsLeast(h, roots.Objects(), all);
  }

  lemma TargetReachable(g: Graph, roots: Roots, e: Entry, t: Managed)
    requires roots.Valid(g) && EntersThrough(g, roots, e, t)
    ensures t in Reach(g, roots.Objects())
  {
    ReachIsClosed(g, roots.Objects());
    var r := ReferenceTarget(g, roots, e, t);
    assert t in Successors(g.body[r]);
  }

  lemma ReferenceTarget(g: Graph, roots: Roots, e: Entry, t: Managed) returns (r: Managed)
    requires roots.Valid(g) && EntersThrough(g, roots, e, t)
    ensures r in Reach(g, roots.Objects()) && r in g.body && g.body[r] == TableReference(t)
    ensures g.TableOrNull(t) && TopTarget(g, Reach(g, roots.Objects()), roots.globals, t)
  {
    ReachIsClosed(g, roots.Objects());
    match e {
      case Cell(i) =>
        r := roots.stack[i].item;
        assert r in AllRefs(roots.stack);
      case LastResult =>
        r := g.body[roots.frame].lastResult.item;
        assert r in Successors(g.body[roots.frame]);
    }
    assert g.ValidAt(r);
  }

  lemma TargetJumped(g: Graph, roots: Roots, e: Entry, t: Managed, h: Graph, s: set<Managed>)
    requires roots.Valid(g) && EntersThrough(g, roots, e, t) && Closed(h, s) && roots.Objects() <= s
    requires h == Jumped(g, TopTargets(g, Reach(g, roots.Objects()), roots.globals))
    ensures t in s
  {
    match e {
      case Cell(i) =>
        var r := roots.stack[i].item;
        assert r in AllRefs(roots.stack) && h.body[r] == g.body[r];
        assert t in Successors(h.body[r]);
      case LastResult =>
        var f := roots.frame;
        assert h.body[f] == g.body[f];
        var r := g.body[f].lastResult.item;
        assert r in Successors(h.body[f]) && h.body[r] == g.body[r];
        assert t in Successors(h.body[r]);
    }
  }

  /** When the members of an object are reached through a reference first, exactly what the jumps
      reach is marked. */
  lemma MarkedIffJumpedTo(g: Graph, roots: Roots, e: Entry, t: Managed)
    requires roots.Valid(g) && EntersThrough(g, roots, e, t)
    requires OnlyInto(g, Reach(g, roots.Objects()), roots.globals, t)
    ensures ScanRoots(g, roots) ==
      Reach(Jumped(g, TopTargets(g, Reach(g, roots.Objects()), roots.globals)), roots.Objects())
  {
    var h, all, s := JumpReach(g, roots);
    ScanRootsFinishes(g, roots, all);
    DoneIsJumpClosed(g, all, roots.globals, ScanRoots(g, roots));
    ReachIsLeast(h, roots.Objects(), ScanRoots(g, roots));
    MarkedAreJumpedTo(g, roots, e, t, h, all, s);
  }

  lemma MarkedAreJumpedTo(g: Graph, roots: Roots, e: Entry, t: Managed, h: Graph, all: set<Managed>, s: set<Managed>)
    requires roots.Valid(g) && EntersThrough(g, roots, e, t) && OnlyInto(g, all, roots.globals, t)
    requires all == Reach(g, roots.Objects()) && h == Jumped(g, TopTargets(g, all, roots.globals))
    requires s <= all && Closed(h, s) && roots.Objects() <= s
    ensures ScanRoots(g, roots) <= s
  {
    var first := Reach(g, Earlier(roots, e));
    var q := first * s;
    EarlierInside(g, roots, e);
    ReachIsClosed(g, Earlier(roots, e));
    JumpsInside(g, TopTargets(g, all, roots.globals), first);
    assert Closed(h, q) by {
      forall o | o in q ensures Successors(h.body[o]) <= q {
        assert Successors(h.body[o]) <= first && Successors(h.body[o]) <= s;
      }
    }
    TargetJumped(g, roots, e, t, h, s);
    var r := ReferenceTarget(g, roots, e, t);
    JumpedConfines(g, all, roots.globals, t, q, {});
    JumpedConfines(g, all, roots.globals, t, s, {t});
    JumpedOpen(g, all, roots.globals, s, {}, t);
    JumpedOpen(g, all, roots.globals, s, {t}, roots.globals);
    if e.LastResult? { JumpedOpen(g, all, roots.globals, q, {}, roots.globals); }
    EnteredInside(g, roots, e, t, q, s);
  }

  /** Part o is what the "super" slot of table t holds: o has a child, whose members are in t. */
  ghost predicate SuperSlotOf(g: Graph, s: set<Managed>, t: Managed, o: Managed) {
    o in s && IsPart(g, o) && g.body[o].child.Ref? && VariablesOf(g, g.body[o].child.item) == t
  }

  /** So marking is complete iff every part that only the "super" slot of t would lead to can be
      reached along the jumps too. */
  lemma CompleteIffSupersReached(g: Graph, roots: Roots, e: Entry, t: Managed)
    requires roots.Valid(g) && EntersThrough(g, roots, e, t)
    requires var s := Reach(g, roots.Objects()); OnlyInto(g, s, roots.globals, t) && SuperLinked(g, s)
    ensures var s := Reach(g, roots.Objects());
      var jumped := Reach(Jumped(g, TopTargets(g, s, roots.globals)), roots.Objects());
      ScanRoots(g, roots) == s <==>
        forall o :: SuperSlotOf(g, s, t, o) ==> o in jumped
  {
    var s := Reach(g, roots.Objects());
    MarkedIffJumpedTo(g, roots, e, t);
    if forall o :: SuperSlotOf(g, s, t, o) ==> o in ScanRoots(g, roots) {
      SupersReached(g, roots, t);
      MarkedWhenFollowed(g, roots);
    }
  }

  lemma SupersReached(g: Graph, roots: Roots, t: Managed)
    requires roots.Valid(g)
    requires var s := Reach(g, roots.Objects()); OnlyInto(g, s, roots.globals, t) && SuperLinked(g, s)
    requires forall o :: SuperSlotOf(g, Reach(g, roots.Objects()), t, o) ==> o in ScanRoots(g, roots)
    ensures SupersFollowed(g, Reach(g, roots.Objects()), roots.globals, ScanRoots(g, roots))
  {
    var s := Reach(g, roots.Objects());
    ReachIsClosed(g, roots.Objects());
    forall o | o in s && IsPart(g, o) && g.body[o].child.Ref? && o !in ScanRoots(g, roots)
      ensures VariablesOf(g, g.body[o].child.item) != null
      ensures !TopTarget(g, s, roots.globals, VariablesOf(g, g.body[o].child.item))
    {
      var c := g.body[o].child.item;
      assert c in Successors(g.body[o]) && HoldsSuper(g, c, o);
      assert !SuperSlotOf(g, s, t, o);
    }
  }

  // ----- the other way in -----

  /** What has been scanned before e is closed: everything that can be reached from there is marked. */
  lemma EarlierIsMarked(g: Graph, roots: Roots, e: Entry, q: set<Managed>)
    requires roots.Valid(g) && (e.Cell? ==> e.i <= |roots.stack|) && q == Reach(g, Earlier(roots, e))
    requires SuperLinked(g, q)
    requires forall m :: SupersFollowed(g, q, roots.globals, m)
    ensures q <= ScanRoots(g, roots)
  {
    EarlierInside(g, roots, e);
    ReachIsClosed(g, Earlier(roots, e));
    var m := EarlierScan(g, roots, e, q);
    DoneIsClosed(g, q, roots.globals, m);
    ReachIsLeast(g, Earlier(roots, e), m);
  }

  lemma EarlierScan(g: Graph, roots: Roots, e: Entry, q: set<Managed>) returns (m: set<Managed>)
    requires roots.Valid(g) && (e.Cell? ==> e.i <= |roots.stack|) && Closed(g, q) && Earlier(roots, e) <= q
    ensures DoneBut(g, q, roots.globals, m, {}) && Earlier(roots, e) <= m <= ScanRoots(g, roots)
  {
    match e {
      case Cell(i) =>
        var before, rest := roots.stack[..i], roots.stack[i..];
        assert roots.stack == before + rest;
        m := ScanValues(g, {}, before, false);
        ScanValuesFinishes(g, q, roots.globals, {}, {}, before, false);
        ScanInTurn(g, {}, before, rest, false);
        assert m <= ScanValues(g, {}, roots.stack, false);
      case LastResult =>
        var m1 := ScanValues(g, {}, roots.stack, false);
        ScanValuesFinishes(g, q, roots.globals, {}, {}, roots.stack, false);
        var m2 := ScanItem(g, m1, roots.exception);
        ScanItemFinishes(g, q, roots.globals, m1, {}, roots.exception);
        m := ScanTable(g, m2, roots.globals, true);
        ScanTableFinishes(g, q, roots.globals, m2, {}, roots.globals, true);
    }
  }

  lemma SmallerTargets(g: Graph, s: set<Managed>, q: set<Managed>, globals: Managed, t: Managed, m: set<Managed>)
    requires q <= s && Closed(g, q) && OnlyInto(g, s, globals, t) && SuperLinked(g, s) && !TopTarget(g, q, globals, t)
    ensures SuperLinked(g, q) && SupersFollowed(g, q, globals, m)
  {
    forall o | o in q && IsPart(g, o) && g.body[o].child.Ref?
      ensures VariablesOf(g, g.body[o].child.item) != null
        && !TopTarget(g, q, globals, VariablesOf(g, g.body[o].child.item))
    {
      var c := g.body[o].child.item;
      assert c in Successors(g.body[o]) && HoldsSuper(g, c, o);
      assert g.body[c].variables != t ==> !TopTarget(g, s, globals, g.body[c].variables);
    }
  }

  lemma SuperIsSuccessor(g: Graph, t: Managed, x: Managed)
    requires t in g.body && g.body[t].Table? && Slot(SUPER, Ref(x)) in g.body[t].slots
    ensures x in Successors(g.body[t])
  {
    var i :| 0 <= i < |g.body[t].slots| && g.body[t].slots[i] == Slot(SUPER, Ref(x));
    assert ValuesOf(g.body[t].slots)[i] == Ref(x);
  }

  /** When table t is come to through its own part, before any reference to it, marking is complete. */
  lemma CompleteThroughPart(g: Graph, roots: Roots, e: Entry, t: Managed)
    requires roots.Valid(g) && (e.Cell? ==> e.i <= |roots.stack|)
    requires var s := Reach(g, roots.Objects()); OnlyInto(g, s, roots.globals, t) && SuperLinked(g, s)
    requires var q := Reach(g, Earlier(roots, e)); t in q && !TopTarget(g, q, roots.globals, t)
    ensures ScanRoots(g, roots) == Reach(g, roots.Objects())
  {
    var s, q := Reach(g, roots.Objects()), Reach(g, Earlier(roots, e));
    EarlierInside(g, roots, e);
    ReachIsClosed(g, Earlier(roots, e));
    ReachIsClosed(g, roots.Objects());
    ReachIsLeast(g, Earlier(roots, e), s);
    forall m ensures SupersFollowed(g, q, roots.globals, m) {
      SmallerTargets(g, s, q, roots.globals, t, m);
    }
    SmallerTargets(g, s, q, roots.globals, t, {});
    EarlierIsMarked(g, roots, e, q);
    forall o | SuperSlotOf(g, s, t, o) ensures o in ScanRoots(g, roots) {
      assert HoldsSuper(g, g.body[o].child.item, o);
      SuperIsSuccessor(g, t, o);
    }
    SupersReached(g, roots, t);
    MarkedWhenFollowed(g, roots);
  }

  /** Whatever leads to t, in whatever order, and whether it is reached at all: marking is complete iff
      the parts in its "super" slot are marked. */
  lemma CompleteIffSupersMarked(g: Graph, roots: Roots, t: Managed)
    requires roots.Valid(g)
    requires var s := Reach(g, roots.Objects()); OnlyInto(g, s, roots.globals, t) && SuperLinked(g, s)
    ensures var s := Reach(g, roots.Objects());
      ScanRoots(g, roots) == s <==> forall o :: SuperSlotOf(g, s, t, o) ==> o in ScanRoots(g, roots)
  {
    var s := Reach(g, roots.Objects());
    if forall o :: SuperSlotOf(g, s, t, o) ==> o in ScanRoots(g, roots) {
      SupersReached(g, roots, t);
      MarkedWhenFollowed(g, roots);
    }
  }
}
