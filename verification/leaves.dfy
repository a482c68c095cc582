/** Marks that are set before a scan starts, on objects that point at nothing: they stay, and the scan
    marks what it would mark without them. */
module Leaves {
  import opened Heap
  import opened Tracing
  import opened Exactness

  ghost predicate AreLeaves(g: Graph, l: set<Managed>) {
    forall o :: o in l ==> o in g.body && Successors(g.body[o]) == {}
  }

  ghost function ScanFrom(g: Graph, roots: Roots, m: set<Managed>): set<Managed>
    requires roots.Valid(g)
  {
    var m1 := ScanValues(g, m, roots.stack, false);
    var m2 := ScanItem(g, m1, roots.exception);
    var m3 := ScanTable(g, m2, roots.globals, true);
    ScanFrame(g, m3, roots.frame)
  }

  lemma {:induction false} NoRefs(g: Graph, m: set<Managed>, vs: seq<Value>, top: bool)
    requires g.Valid() && Items(g, vs) && AllRefs(vs) == {}
    ensures ScanValues(g, m, vs, top) == m
  {
    if vs != [] {
      assert Refs(vs[0]) <= AllRefs(vs) && AllRefs(vs[1..]) <= AllRefs(vs);
      NoRefs(g, m, vs[1..], top);
    }
  }

  lemma Swap(m: set<Managed>, l: set<Managed>, o: Managed)
    ensures (m + l) + {o} == (m + {o}) + l && (o in l ==> (m + {o}) + l == m + l)
  {
  }

  lemma LeafScanned(g: Graph, m: set<Managed>, o: Managed)
    requires g.Valid() && o in g.body && g.Item(Ref(o)) && o !in m && Successors(g.body[o]) == {}
    ensures ScanItem(g, m, Ref(o)) == m + {o}
  {
    assert g.ValidAt(o);
    match g.body[o] {
      case Part(_, vars, child) => assert vars == null && !child.Ref?;
      case _ =>
    }
  }

  lemma {:induction false} ItemPast(g: Graph, l: set<Managed>, m: set<Managed>, v: Value)
    requires g.Valid() && AreLeaves(g, l) && g.Item(v)
    ensures ScanItem(g, m + l, v) == ScanItem(g, m, v) + l
    decreases g.Containers() - m, 1, if v.Ref? then g.rank[v.item] + 1 else 0
  {
    if v.Ref? && v.item !in m {
      var o := v.item;
      Swap(m, l, o);
      if o in l {
        LeafScanned(g, m, o);
      } else {
        assert g.ValidAt(o);
        match g.body[o] {
          case Part(_, vars, child) =>
            TablePast(g, l, m, vars, false);
            ItemPast(g, l, ScanTable(g, m, vars, false), child);
            Swap(ScanItem(g, ScanTable(g, m, vars, false), child), l, o);
          case ArrayValue(a) => VectorPast(g, l, m, a); Swap(ScanVector(g, m, a), l, o);
          case Closure(f, owner) =>
            FramePast(g, l, m, f);
            ItemPast(g, l, ScanFrame(g, m, f), owner);
            Swap(ScanItem(g, ScanFrame(g, m, f), owner), l, o);
          case TableReference(t) => TablePast(g, l, m, t, true); Swap(ScanTable(g, m, t, true), l, o);
          case ArrayReference(a) => VectorPast(g, l, m, a); Swap(ScanVector(g, m, a), l, o);
          case StringReference(t) => ItemPast(g, l, m, t); Swap(ScanItem(g, m, t), l, o);
          case _ =>
        }
      }
    }
  }

  lemma {:induction false} TablePast(g: Graph, l: set<Managed>, m: set<Managed>, t: Managed?, top: bool)
    requires g.Valid() && AreLeaves(g, l) && g.TableOrNull(t)
    ensures ScanTable(g, m + l, t, top) == ScanTable(g, m, t, top) + l
    decreases g.Containers() - m, 0, 0
  {
    if t != null && t !in m {
      assert g.ValidAt(t);
      Swap(m, l, t);
      if t in l {
        NoRefs(g, m + {t}, ValuesOf(g.body[t].slots), top);
      } else {
        ValuesPast(g, l, m + {t}, ValuesOf(g.body[t].slots), top);
      }
    }
  }

  lemma {:induction false} VectorPast(g: Graph, l: set<Managed>, m: set<Managed>, a: Managed?)
    requires g.Valid() && AreLeaves(g, l) && g.VectorOrNull(a)
    ensures ScanVector(g, m + l, a) == ScanVector(g, m, a) + l
    decreases g.Containers() - m, 0, 0
  {
    if a != null && a !in m {
      assert g.ValidAt(a);
      Swap(m, l, a);
      if g.body[a].managed {
        if a in l { NoRefs(g, m + {a}, g.body[a].items, true); }
        else { ValuesPast(g, l, m + {a}, g.body[a].items, true); }
      }
    }
  }

  lemma {:induction false} ValuesPast(g: Graph, l: set<Managed>, m: set<Managed>, vs: seq<Value>, top: bool)
    requires g.Valid() && AreLeaves(g, l) && Items(g, vs)
    ensures ScanValues(g, m + l, vs, top) == ScanValues(g, m, vs, top) + l
    decreases g.Containers() - m, 2, |vs|
  {
    if vs != [] {
      var v := if top then Top(g, vs[0]) else vs[0];
      ItemPast(g, l, m, v);
      ValuesPast(g, l, ScanItem(g, m, v), vs[1..], top);
    }
  }

  lemma {:induction false} FramePast(g: Graph, l: set<Managed>, m: set<Managed>, f: Managed?)
    requires g.Valid() && AreLeaves(g, l) && g.FrameOrNull(f)
    ensures ScanFrame(g, m + l, f) == ScanFrame(g, m, f) + l
    decreases g.Containers() - m, 0, if f == null then 0 else g.rank[f] + 1, 1
  {
    if f != null {
      assert g.ValidAt(f);
      if f !in m { OneFramePast(g, l, m, f); }
      var m' := if f in m then m else ScanOneFrame(g, m, f);
      FramePast(g, l, m', g.body[f].previous);
    }
  }

  /** A frame that is a leaf is passed by, like every marked frame; another one is followed. */
  lemma {:induction false} OneFramePast(g: Graph, l: set<Managed>, m: set<Managed>, f: Managed)
    requires g.Valid() && AreLeaves(g, l) && g.FrameOrNull(f) && f !in m
    ensures (if f in l then m + l else ScanOneFrame(g, m + l, f)) == ScanOneFrame(g, m, f) + l
    decreases g.Containers() - m, 0, g.rank[f] + 1, 0
  {
    Swap(m, l, f);
    assert g.ValidAt(f);
    var b := g.body[f];
    if f in l {
      assert b.locals == null && b.ownerFrame == null && !b.lastResult.Ref? && !b.this_.Ref?;
    } else {
      ItemPast(g, l, m + {f}, b.lastResult);
      var m1 := ScanItem(g, m + {f}, b.lastResult);
      ItemPast(g, l, m1, b.this_);
      var m2 := ScanItem(g, m1, b.this_);
      TablePast(g, l, m2, b.locals, true);
      FramePast(g, l, ScanTable(g, m2, b.locals, true), b.ownerFrame);
    }
  }

  /** A scan that starts with marks on leaves marks what it marks without them, and those. */
  lemma MarksOnLeavesStay(g: Graph, roots: Roots, l: set<Managed>)
    requires roots.Valid(g) && AreLeaves(g, l)
    ensures ScanFrom(g, roots, l) == ScanRoots(g, roots) + l
  {
    assert {} + l == l;
    ValuesPast(g, l, {}, roots.stack, false);
    var m1 := ScanValues(g, {}, roots.stack, false);
    ItemPast(g, l, m1, roots.exception);
    var m2 := ScanItem(g, m1, roots.exception);
    TablePast(g, l, m2, roots.globals, true);
    FramePast(g, l, ScanTable(g, m2, roots.globals, true), roots.frame);
  }
}
