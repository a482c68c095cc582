/** What a scan marks, as functions from the marks before to the marks after: one function for
    each scan routine of the collector. */
module Tracing {
  import opened Heap

  /** The most derived part of an object, where some pointers are followed from. */
  function Top(g: Graph, v: Value): (r: Value)
    requires g.Valid() && g.Item(v)
    ensures g.Item(r) && (r.Ref? <==> v.Ref?)
    decreases if v.Ref? then g.rank[v.item] else 0
  {
    if v.Ref? && IsPart(g, v.item) && g.body[v.item].child.Ref? then Top(g, g.body[v.item].child) else v
  }

  /** An instance of a class, as opposed to a module or any other item. */
  predicate IsPart(g: Graph, o: Managed) {
    o in g.body && g.body[o].Part? && !g.body[o].isModule
  }

  ghost predicate Items(g: Graph, vs: seq<Value>) {
    forall i :: 0 <= i < |vs| ==> g.Item(vs[i])
  }

  /** Items are marked after what they point at... */
  ghost function ScanItem(g: Graph, m: set<Managed>, v: Value): (r: set<Managed>)
    requires g.Valid() && g.Item(v)
    ensures m <= r
    decreases g.Containers() - m, 1, if v.Ref? then g.rank[v.item] + 1 else 0
  {
    if !v.Ref? || v.item in m then m
    else
      var o := v.item;
      (match g.body[o]
       case Part(_, vars, child) => ScanItem(g, ScanTable(g, m, vars, false), child)
       case ArrayValue(a) => ScanVector(g, m, a)
       case Closure(f, owner) => ScanItem(g, ScanFrame(g, m, f), owner)
       case TableReference(t) => ScanTable(g, m, t, true)
       case ArrayReference(a) => ScanVector(g, m, a)
       case StringReference(s) => ScanItem(g, m, s)
       case _ => m) + {o}
  }

  /** ... tables, vectors and frames before. With top set, values are followed from their most
      derived part. */
  ghost function ScanTable(g: Graph, m: set<Managed>, t: Managed?, top: bool): (r: set<Managed>)
    requires g.Valid() && g.TableOrNull(t)
    ensures m <= r && (t != null ==> t in r)
    decreases g.Containers() - m, 0, 0
  {
    if t == null || t in m then m else ScanValues(g, m + {t}, ValuesOf(g.body[t].slots), top)
  }

  ghost function ScanVector(g: Graph, m: set<Managed>, a: Managed?): (r: set<Managed>)
    requires g.Valid() && g.VectorOrNull(a)
    ensures m <= r && (a != null ==> a in r)
    decreases g.Containers() - m, 0, 0
  {
    if a == null || a in m then m
    else if g.body[a].managed then ScanValues(g, m + {a}, g.body[a].items, true)
    else m + {a}
  }

  ghost function ScanValues(g: Graph, m: set<Managed>, vs: seq<Value>, top: bool): (r: set<Managed>)
    requires g.Valid() && Items(g, vs)
    ensures m <= r
    decreases g.Containers() - m, 2, |vs|
  {
    if vs == [] then m
    else ScanValues(g, ScanItem(g, m, if top then Top(g, vs[0]) else vs[0]), vs[1..], top)
  }

  /** A frame, and then the frames before it, marked or not. */
  ghost function ScanFrame(g: Graph, m: set<Managed>, f: Managed?): (r: set<Managed>)
    requires g.Valid() && g.FrameOrNull(f)
    ensures m <= r && (f != null ==> f in r)
    decreases g.Containers() - m, 0, if f == null then 0 else g.rank[f] + 1, 1
  {
    if f == null then m
    else ScanFrame(g, if f in m then m else ScanOneFrame(g, m, f), g.body[f].previous)
  }

  ghost function ScanOneFrame(g: Graph, m: set<Managed>, f: Managed): (r: set<Managed>)
    requires g.Valid() && g.FrameOrNull(f) && f !in m
    ensures m + {f} <= r
    decreases g.Containers() - m, 0, g.rank[f] + 1, 0
  {
    var b := g.body[f];
    var m1 := ScanItem(g, m + {f}, b.lastResult);
    var m2 := ScanItem(g, m1, b.this_);
    var m3 := ScanTable(g, m2, b.locals, true);
    ScanFrame(g, m3, b.ownerFrame)
  }

  // ----- what bounds the marks from above -----

  ghost predicate TopsIn(g: Graph, s: set<Managed>, vs: seq<Value>)
    requires g.Valid() && Items(g, vs)
  {
    forall i :: 0 <= i < |vs| ==> Refs(Top(g, vs[i])) <= s
  }

  /** A scan of table t in this way stays in s, and one of a marked table stays where it is. */
  ghost predicate Open(g: Graph, s: set<Managed>, m: set<Managed>, t: Managed?, top: bool)
    requires g.Valid() && g.TableOrNull(t)
  {
    t == null || t in m ||
    (t in s && if top then TopsIn(g, s, ValuesOf(g.body[t].slots)) else AllRefs(ValuesOf(g.body[t].slots)) <= s)
  }

  /** What a scan follows from o stays in s. */
  ghost predicate Follows(g: Graph, s: set<Managed>, m: set<Managed>, o: Managed)
    requires g.Valid()
  {
    o in g.body && g.ValidAt(o) &&
    match g.body[o]
    case Part(_, vars, child) => Open(g, s, m, vars, false) && Refs(child) <= s
    case TableReference(t) => Open(g, s, m, t, true)
    case Table(_) => true
    case Vector(managed, items) => managed ==> TopsIn(g, s, items)
    case Frame(r, t, locals, owner, previous) =>
      Refs(r) + Refs(t) + Opt(owner) + Opt(previous) <= s && Open(g, s, m, locals, true)
    case _ => Successors(g.body[o]) <= s
  }

  /** No scan that starts in s leaves it. */
  ghost predicate Confines(g: Graph, s: set<Managed>, m: set<Managed>)
    requires g.Valid()
  {
    forall o :: o in s ==> Follows(g, s, m, o)
  }

  lemma ConfinesMore(g: Graph, s: set<Managed>, m: set<Managed>, wider: set<Managed>)
    requires g.Valid() && Confines(g, s, m) && m <= wider
    ensures Confines(g, s, wider)
  {
    forall o | o in s ensures Follows(g, s, wider, o) {
      assert Follows(g, s, m, o);
    }
  }

  /** A part and the parts derived from it are in s together. */
  ghost predicate ChildrenIn(g: Graph, s: set<Managed>) {
    forall o :: o in s && IsPart(g, o) ==> Refs(g.body[o].child) <= s
  }

  lemma {:induction false} TopInside(g: Graph, s: set<Managed>, v: Value)
    requires g.Valid() && ChildrenIn(g, s) && g.Item(v) && Refs(v) <= s
    ensures Refs(Top(g, v)) <= s
    decreases if v.Ref? then g.rank[v.item] else 0
  {
    if v.Ref? && IsPart(g, v.item) && g.body[v.item].child.Ref? {
      TopInside(g, s, g.body[v.item].child);
    }
  }

  lemma TopsInside(g: Graph, s: set<Managed>, vs: seq<Value>)
    requires g.Valid() && ChildrenIn(g, s) && Items(g, vs) && AllRefs(vs) <= s
    ensures TopsIn(g, s, vs)
  {
    forall i | 0 <= i < |vs| ensures Refs(Top(g, vs[i])) <= s {
      assert Refs(vs[i]) <= AllRefs(vs);
      TopInside(g, s, vs[i]);
    }
  }

  lemma ClosedChildren(g: Graph, s: set<Managed>)
    requires g.Valid() && Closed(g, s)
    ensures ChildrenIn(g, s)
  {
    forall o | o in s && IsPart(g, o) ensures Refs(g.body[o].child) <= s {
      assert Successors(g.body[o]) <= s;
    }
  }

  lemma ClosedOpen(g: Graph, s: set<Managed>, m: set<Managed>, t: Managed?, top: bool)
    requires g.Valid() && Closed(g, s) && g.TableOrNull(t) && Opt(t) <= s
    ensures Open(g, s, m, t, top)
  {
    if t != null {
      assert Successors(g.body[t]) <= s && g.ValidAt(t);
      ClosedChildren(g, s);
      TopsInside(g, s, ValuesOf(g.body[t].slots));
    }
  }

  /** A set closed under pointers confines every scan. */
  lemma ClosedConfines(g: Graph, s: set<Managed>, m: set<Managed>)
    requires g.Valid() && Closed(g, s)
    ensures Confines(g, s, m)
  {
    forall o | o in s ensures Follows(g, s, m, o) {
      assert Successors(g.body[o]) <= s && g.ValidAt(o);
      match g.body[o] {
        case Part(_, vars, child) => ClosedOpen(g, s, m, vars, false);
        case TableReference(t) => ClosedOpen(g, s, m, t, true);
        case Vector(managed, items) =>
          ClosedChildren(g, s);
          if managed { TopsInside(g, s, items); }
        case Frame(_, _, locals, _, _) => ClosedOpen(g, s, m, locals, true);
        case _ =>
      }
    }
  }

  lemma {:induction false} ScanItemInside(g: Graph, s: set<Managed>, m: set<Managed>, v: Value)
    requires g.Valid() && Confines(g, s, m) && g.Item(v) && m <= s && Refs(v) <= s
    ensures ScanItem(g, m, v) <= s
    decreases g.Containers() - m, 1, if v.Ref? then g.rank[v.item] + 1 else 0
  {
    if v.Ref? && v.item !in m {
      assert Follows(g, s, m, v.item);
      match g.body[v.item] {
        case Part(_, vars, child) =>
          ScanTableInside(g, s, m, vars, false);
          ConfinesMore(g, s, m, ScanTable(g, m, vars, false));
          ScanItemInside(g, s, ScanTable(g, m, vars, false), child);
        case ArrayValue(a) => ScanVectorInside(g, s, m, a);
        case Closure(f, owner) =>
          ScanFrameInside(g, s, m, f);
          ConfinesMore(g, s, m, ScanFrame(g, m, f));
          ScanItemInside(g, s, ScanFrame(g, m, f), owner);
        case TableReference(t) => ScanTableInside(g, s, m, t, true);
        case ArrayReference(a) => ScanVectorInside(g, s, m, a);
        case StringReference(t) => ScanItemInside(g, s, m, t);
        case _ =>
      }
    }
  }

  lemma {:induction false} ScanTableInside(g: Graph, s: set<Managed>, m: set<Managed>, t: Managed?, top: bool)
    requires g.Valid() && Confines(g, s, m) && g.TableOrNull(t) && m <= s && Open(g, s, m, t, top)
    ensures ScanTable(g, m, t, top) <= s
    decreases g.Containers() - m, 0, 0
  {
    if t != null && t !in m {
      ConfinesMore(g, s, m, m + {t});
      ScanValuesInside(g, s, m + {t}, ValuesOf(g.body[t].slots), top);
    }
  }

  lemma {:induction false} ScanVectorInside(g: Graph, s: set<Managed>, m: set<Managed>, a: Managed?)
    requires g.Valid() && Confines(g, s, m) && g.VectorOrNull(a) && m <= s && Opt(a) <= s
    ensures ScanVector(g, m, a) <= s
    decreases g.Containers() - m, 0, 0
  {
    if a != null && a !in m {
      assert Follows(g, s, m, a);
      if g.body[a].managed {
        ConfinesMore(g, s, m, m + {a});
        ScanValuesInside(g, s, m + {a}, g.body[a].items, true);
      }
    }
  }

  lemma {:induction false} ScanValuesInside(g: Graph, s: set<Managed>, m: set<Managed>, vs: seq<Value>, top: bool)
    requires g.Valid() && Confines(g, s, m) && Items(g, vs) && m <= s
    requires if top then TopsIn(g, s, vs) else AllRefs(vs) <= s
    ensures ScanValues(g, m, vs, top) <= s
    decreases g.Containers() - m, 2, |vs|
  {
    if vs != [] {
      var v := if top then Top(g, vs[0]) else vs[0];
      assert !top ==> AllRefs(vs) == Refs(vs[0]) + AllRefs(vs[1..]);
      ScanItemInside(g, s, m, v);
      ConfinesMore(g, s, m, ScanItem(g, m, v));
      ScanValuesInside(g, s, ScanItem(g, m, v), vs[1..], top);
    }
  }

  lemma {:induction false} ScanFrameInside(g: Graph, s: set<Managed>, m: set<Managed>, f: Managed?)
    requires g.Valid() && Confines(g, s, m) && g.FrameOrNull(f) && m <= s && Opt(f) <= s
    ensures ScanFrame(g, m, f) <= s
    decreases g.Containers() - m, 0, if f == null then 0 else g.rank[f] + 1, 1
  {
    if f != null {
      assert Follows(g, s, m, f);
      var m' := if f in m then m else ScanOneFrame(g, m, f);
      if f !in m { ScanOneFrameInside(g, s, m, f); }
      ConfinesMore(g, s, m, m');
      ScanFrameInside(g, s, m', g.body[f].previous);
    }
  }

  lemma {:induction false} ScanOneFrameInside(g: Graph, s: set<Managed>, m: set<Managed>, f: Managed)
    requires g.Valid() && Confines(g, s, m) && g.FrameOrNull(f) && m <= s && f in s && f !in m
    ensures ScanOneFrame(g, m, f) <= s
    decreases g.Containers() - m, 0, g.rank[f] + 1, 0
  {
    var b, m0 := g.body[f], m + {f};
    assert Follows(g, s, m, f);
    ConfinesMore(g, s, m, m0);
    ScanItemInside(g, s, m0, b.lastResult);
    AfterLastResult(g, s, m, f);
  }

  /** The rest of a frame, behind its last result. */
  lemma {:induction false} AfterLastResult(g: Graph, s: set<Managed>, m: set<Managed>, f: Managed)
    requires g.Valid() && g.FrameOrNull(f) && f !in m
    requires var m1 := ScanItem(g, m + {f}, g.body[f].lastResult); m1 <= s && Confines(g, s, m1)
    requires f in s
    ensures ScanOneFrame(g, m, f) <= s
    decreases g.Containers() - m - {f}, 3
  {
    var b := g.body[f];
    var m1 := ScanItem(g, m + {f}, b.lastResult);
    assert Follows(g, s, m1, f);
    ScanItemInside(g, s, m1, b.this_);
    var m2 := ScanItem(g, m1, b.this_);
    ConfinesMore(g, s, m1, m2);
    ScanTableInside(g, s, m2, b.locals, true);
    var m3 := ScanTable(g, m2, b.locals, true);
    ConfinesMore(g, s, m2, m3);
    ScanFrameInside(g, s, m3, b.ownerFrame);
  }
}
