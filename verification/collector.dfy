/** The collector: scan routines that set mark bits in place, the sweeps, and what a whole
    collection frees. */
module Collector {
  import opened Heap
  import opened Tracing
  import opened Exactness
  import opened Leaves
  import opened Slots

  /** g is the heap as it is. */
  ghost predicate Shows(g: Graph)
    reads g.body.Keys`body
  {
    forall o :: o in g.body ==> o.body == g.body[o]
  }

  ghost function Marks(g: Graph): set<Managed>
    reads g.body.Keys`marked
  {
    set o | o in g.body && o.marked
  }

  method SetMark(ghost g: Graph, o: Managed)
    requires o in g.body
    modifies o`marked
    ensures Marks(g) == old(Marks(g)) + {o}
  {
    o.marked := true;
  }

  /** The most derived part of an object. */
  method TopOf(ghost g: Graph, v: Value) returns (r: Value)
    requires g.Valid() && Shows(g) && g.Item(v)
    ensures r == Top(g, v)
  {
    r := v;
    while r.Ref? && r.item.body.Part? && !r.item.body.isModule && r.item.body.child.Ref?
      invariant g.Item(r) && Top(g, r) == Top(g, v)
      decreases if r.Ref? then g.rank[r.item] else 0
    {
      assert g.ValidAt(r.item);
      r := r.item.body.child;
    }
  }

  method VisitItem(ghost g: Graph, v: Value)
    requires g.Valid() && Shows(g) && g.Item(v)
    modifies g.body.Keys`marked
    ensures Marks(g) == ScanItem(g, old(Marks(g)), v)
    decreases g.Containers() - Marks(g), 1, if v.Ref? then g.rank[v.item] + 1 else 0
  {
    if v.Ref? && !v.item.marked {
      var o := v.item;
      assert g.ValidAt(o);
      match o.body {
        case Part(_, vars, child) =>
          VisitTable(g, vars, false);
          VisitItem(g, child);
        case ArrayValue(a) => VisitVector(g, a);
        case Closure(f, owner) =>
          VisitFrames(g, f);
          VisitItem(g, owner);
        case TableReference(t) => VisitTable(g, t, true);
        case ArrayReference(a) => VisitVector(g, a);
        case StringReference(t) => VisitItem(g, t);
        case _ =>
      }
      SetMark(g, o);
    }
  }

  method VisitTable(ghost g: Graph, t: Managed?, top: bool)
    requires g.Valid() && Shows(g) && g.TableOrNull(t)
    modifies g.body.Keys`marked
    ensures Marks(g) == ScanTable(g, old(Marks(g)), t, top)
    decreases g.Containers() - Marks(g), 0, 0
  {
    if t != null && !t.marked {
      assert g.ValidAt(t);
      SetMark(g, t);
      ghost var vs, m := ValuesOf(g.body[t].slots), Marks(g);
      var i := 0;
      while i < |t.body.slots|
        invariant 0 <= i <= |vs| && m <= Marks(g)
        invariant ScanValues(g, Marks(g), vs[i..], top) == ScanValues(g, m, vs, top)
      {
        var v := t.body.slots[i].value;
        if top { v := TopOf(g, v); }
        assert vs[i..][1..] == vs[i + 1..];
        VisitItem(g, v);
        i := i + 1;
      }
    }
  }

  method VisitVector(ghost g: Graph, a: Managed?)
    requires g.Valid() && Shows(g) && g.VectorOrNull(a)
    modifies g.body.Keys`marked
    ensures Marks(g) == ScanVector(g, old(Marks(g)), a)
    decreases g.Containers() - Marks(g), 0, 0
  {
    if a != null && !a.marked {
      assert g.ValidAt(a);
      SetMark(g, a);
      if a.body.managed {
        ghost var vs, m := g.body[a].items, Marks(g);
        var i := 0;
        while i < |a.body.items|
          invariant 0 <= i <= |vs| && m <= Marks(g)
          invariant ScanValues(g, Marks(g), vs[i..], true) == ScanValues(g, m, vs, true)
        {
          var v := TopOf(g, a.body.items[i]);
          assert vs[i..][1..] == vs[i + 1..];
          VisitItem(g, v);
          i := i + 1;
        }
      }
    }
  }

  method VisitFrames(ghost g: Graph, f: Managed?)
    requires g.Valid() && Shows(g) && g.FrameOrNull(f)
    modifies g.body.Keys`marked
    ensures Marks(g) == ScanFrame(g, old(Marks(g)), f)
    decreases g.Containers() - Marks(g), 0, if f == null then 0 else g.rank[f] + 1, 1
  {
    var target := f;
    while target != null
      invariant g.FrameOrNull(target) && old(Marks(g)) <= Marks(g)
      invariant ScanFrame(g, Marks(g), target) == ScanFrame(g, old(Marks(g)), f)
      decreases if target == null then 0 else g.rank[target] + 1
    {
      assert g.ValidAt(target);
      if !target.marked {
        SetMark(g, target);
        VisitItem(g, target.body.lastResult);
        VisitItem(g, target.body.this_);
        VisitTable(g, target.body.locals, true);
        VisitFrames(g, target.body.ownerFrame);
      }
      target := target.body.previous;
    }
  }

  const TIMES_PER_CALL: nat := 1024

  /** What a collector works on: the roots, and the pools of vectors, tables, items and frames. Ghost
      state: the blocks of all pools. */
  class Vm {
    var stack: seq<Value>
    var exception: Value
    var globals: Managed
    var frame: Managed?
    var gcPhase: nat
    const pools: seq<Pool>
    ghost var blocks: set<Block>

    constructor (ps: seq<Pool>, globalTable: Managed)
      ensures pools == ps && globals == globalTable
      ensures forall i :: 0 <= i < |pools| ==> pools[i].view.depth.Keys <= blocks
    {
      pools, globals := ps, globalTable;
      blocks := set p, b | p in ps && b in p.view.depth :: b;
      stack, exception, frame, gcPhase := [], Null, null, 0;
    }

    /** The pools share no block and no slot, and their slots are the objects of the heap. */
    ghost predicate Apart(g: Graph)
      reads this`blocks, pools
    {
      && (forall i :: 0 <= i < |pools| ==> pools[i].view.home.Keys <= g.body.Keys && pools[i].view.depth.Keys <= blocks)
      && (forall i, j :: 0 <= i < |pools| && 0 <= j < |pools| && i != j ==>
            pools[i] != pools[j] && pools[i].view.depth.Keys !! pools[j].view.depth.Keys
            && pools[i].view.home.Keys !! pools[j].view.home.Keys)
    }

    /** Gives back, pool by pool, what no scan has marked. */
    method SweepAll(ghost g: Graph)
      requires Apart(g) && forall i :: 0 <= i < |pools| ==> pools[i].Structured()
      modifies blocks, g.body.Keys
      ensures forall i :: 0 <= i < |pools| ==>
        pools[i].Structured() && pools[i].States() == AllSwept(old(pools[i].States()))
      ensures forall i :: 0 <= i < |pools| && old(pools[i].view.Counted()) ==> pools[i].view.Counted()
    {
      var i := 0;
      while i < |pools|
        invariant i <= |pools|
        invariant forall j :: 0 <= j < |pools| ==> pools[j].Structured()
        invariant forall j :: 0 <= j < |pools| ==>
          pools[j].States() == if j < i then AllSwept(old(pools[j].States())) else old(pools[j].States())
        invariant forall j :: 0 <= j < |pools| && old(pools[j].view.Counted()) ==> pools[j].view.Counted()
      {
        SweepPool(g, i);
        i := i + 1;
      }
    }

    method SweepPool(ghost g: Graph, i: nat)
      requires Apart(g) && i < |pools| && forall j :: 0 <= j < |pools| ==> pools[j].Structured()
      modifies blocks, g.body.Keys
      ensures forall j :: 0 <= j < |pools| ==> pools[j].Structured()
      ensures pools[i].States() == AllSwept(old(pools[i].States()))
      ensures forall j :: 0 <= j < |pools| && j != i ==> pools[j].States() == old(pools[j].States())
      ensures forall j :: 0 <= j < |pools| && old(pools[j].view.Counted()) ==> pools[j].view.Counted()
    {
      pools[i].Sweep();
      forall j | 0 <= j < |pools| && j != i
        ensures pools[j].Structured() && pools[j].States() == old(pools[j].States())
        ensures old(pools[j].view.Counted()) ==> pools[j].view.Counted()
      {
        PoolStays(pools[j]);
      }
    }

    ghost function Start(): Roots
      reads this
    {
      Roots(stack, exception, globals, frame)
    }

    /** Marks from the operand stack, the exception object, the globals and the current frame. */
    method Scan(ghost g: Graph, ghost from: set<Managed>)
      requires Start().Valid(g) && Shows(g) && Marks(g) == from
      modifies g.body.Keys`marked
      ensures Marks(g) == ScanFrom(g, Start(), from)
    {
      var i := 0;
      while i < |stack|
        invariant i <= |stack|
        invariant ScanValues(g, Marks(g), stack[i..], false) == ScanValues(g, from, stack, false)
      {
        assert stack[i..][1..] == stack[i + 1..];
        VisitItem(g, stack[i]);
        i := i + 1;
      }
      VisitItem(g, exception);
      VisitTable(g, globals, true);
      VisitFrames(g, frame);
    }

    /** Marks, seen from the pools. */
    method ScanPools(ghost g: Graph, ghost from: set<Managed>) returns (ghost marks: set<Managed>)
      requires Apart(g) && forall i :: 0 <= i < |pools| ==> pools[i].Structured()
      requires Start().Valid(g) && Shows(g) && Marks(g) == from
      modifies g.body.Keys`marked
      ensures marks == ScanFrom(g, Start(), from)
      ensures forall i :: 0 <= i < |pools| ==> pools[i].Structured()
      ensures forall i :: 0 <= i < |pools| ==> pools[i].States() == Remarked(old(pools[i].States()), marks)
      ensures forall i :: 0 <= i < |pools| && old(pools[i].view.Counted()) ==> pools[i].view.Counted()
    {
      Scan(g, from);
      marks := Marks(g);
      forall i | 0 <= i < |pools|
        ensures pools[i].Structured() && pools[i].States() == Remarked(old(pools[i].States()), marks)
        ensures old(pools[i].view.Counted()) ==> pools[i].view.Counted()
      {
        PoolRemarked(pools[i]);
        RemarkedBy(old(pools[i].States()), pools[i].States(), marks);
      }
    }

    /** A full collection. */
    method CollectNow(ghost g: Graph, ghost from: set<Managed>) returns (ghost marks: set<Managed>)
      requires Apart(g) && forall i :: 0 <= i < |pools| ==> pools[i].Structured()
      requires Start().Valid(g) && Shows(g) && Marks(g) == from
      modifies blocks, g.body.Keys
      ensures marks == ScanFrom(g, Start(), from)
      ensures forall i :: 0 <= i < |pools| ==> pools[i].Structured()
      ensures forall i :: 0 <= i < |pools| ==> pools[i].States() == Collected(old(pools[i].States()), marks)
      ensures forall i :: 0 <= i < |pools| && old(pools[i].view.Counted()) ==> pools[i].view.Counted()
    {
      marks := ScanPools(g, from);
      SweepAll(g);
    }

    /** A full collection, after which the count of calls starts again. */
    method CollectDue(ghost g: Graph, ghost from: set<Managed>) returns (ghost marks: set<Managed>)
      requires Apart(g) && forall i :: 0 <= i < |pools| ==> pools[i].Structured()
      requires Start().Valid(g) && Shows(g) && Marks(g) == from
      modifies this`gcPhase, blocks, g.body.Keys
      ensures gcPhase == 0 && marks == ScanFrom(g, old(Start()), from)
      ensures forall i :: 0 <= i < |pools| ==> pools[i].Structured()
      ensures forall i :: 0 <= i < |pools| ==> pools[i].States() == Collected(old(pools[i].States()), marks)
      ensures forall i :: 0 <= i < |pools| && old(pools[i].view.Counted()) ==> pools[i].view.Counted()
    {
      marks := CollectNow(g, from);
      label Swept:
      gcPhase := 0;
      forall i | 0 <= i < |pools|
        ensures pools[i].Structured() && pools[i].States() == old@Swept(pools[i].States())
        ensures pools[i].view.Counted() == old@Swept(pools[i].view.Counted())
      {
        PoolStays@Swept(pools[i]);
      }
    }

    /** Collects when enough calls have gone by or it is forced. */
    method Collect(ghost g: Graph, force: bool, ghost from: set<Managed>) returns (ghost marks: set<Managed>)
      requires Apart(g) && forall i :: 0 <= i < |pools| ==> pools[i].Structured()
      requires Start().Valid(g) && Shows(g) && Marks(g) == from
      modifies this`gcPhase, blocks, g.body.Keys
      ensures gcPhase == (if old(gcPhase) == 1024 || force then 0 else old(gcPhase)) && Start() == old(Start())
      ensures marks == ScanFrom(g, old(Start()), from)
      ensures forall i :: 0 <= i < |pools| ==> pools[i].Structured()
      ensures forall i :: 0 <= i < |pools| ==>
        pools[i].States() ==
          if old(gcPhase) == 1024 || force then Collected(old(pools[i].States()), marks) else old(pools[i].States())
      ensures forall i :: 0 <= i < |pools| && old(pools[i].view.Counted()) ==> pools[i].view.Counted()
    {
      if gcPhase == TIMES_PER_CALL || force {
        marks := CollectDue(g, from);
      } else {
        marks := ScanFrom(g, Start(), from);
      }
    }
  }

  /** The pools are all of the heap: where tells the pool of every object. */
  ghost predicate Located(pools: seq<Pool>, where_: map<Managed, nat>)
    reads pools
  {
    forall o {:trigger InPool(pools, where_, o)} :: o in where_ ==> InPool(pools, where_, o)
  }

  ghost predicate InPool(pools: seq<Pool>, where_: map<Managed, nat>, o: Managed)
    reads pools
  {
    o in where_ && where_[o] < |pools| && o in pools[where_[o]].view.home
  }

  /** The states are those of slots of heap h, with the mark bits in marks set. */
  ghost predicate Ready(s: map<Managed, State>, h: Graph, marks: set<Managed>) {
    forall o :: o in s ==> o in h.body && s[o].body == h.body[o] && (s[o].marked <==> o in marks)
  }

  /** The state of a slot is that of the object in it. */
  lemma StateIsObject(p: Pool, o: Managed)
    requires o in p.States()
    ensures o in p.view.home && p.States()[o].body == o.body && p.States()[o].marked == o.marked
  {
  }

  lemma HasState(p: Pool, o: Managed)
    requires p.Structured() && o in p.view.home
    ensures o in p.States()
  {
  }

  lemma ReadyObject(p: Pool, h: Graph, marks: set<Managed>, o: Managed)
    requires p.Structured() && o in p.view.home && Ready(p.States(), h, marks)
    ensures o in h.body && o.body == h.body[o] && (o.marked <==> o in marks)
  {
    HasState(p, o);
    StateIsObject(p, o);
  }

  lemma ApartBoth(vm: Vm, g: Graph, h: Graph)
    requires vm.Apart(g) && h.body.Keys == g.body.Keys
    ensures vm.Apart(h)
  {
  }

  /** A collection after which the heap is h, with these marks set. */
  method CollectTo(vm: Vm, ghost g: Graph, ghost from: set<Managed>, ghost h: Graph, ghost kept: set<Managed>,
                   ghost where_: map<Managed, nat>)
    returns (ghost marks: set<Managed>)
    requires vm.Apart(g) && Located(vm.pools, where_) && where_.Keys == h.body.Keys == g.body.Keys
    requires kept <= h.body.Keys
    requires forall i :: 0 <= i < |vm.pools| ==> vm.pools[i].Structured()
    requires vm.Start().Valid(g) && Shows(g) && Marks(g) == from
    requires forall i :: 0 <= i < |vm.pools| ==>
      Ready(Collected(vm.pools[i].States(), ScanFrom(g, vm.Start(), from)), h, kept)
    modifies vm`gcPhase, vm.blocks, g.body.Keys
    ensures marks == ScanFrom(g, old(vm.Start()), from) && vm.Start() == old(vm.Start())
    ensures Shows(h) && Marks(h) == kept
    ensures forall i :: 0 <= i < |vm.pools| ==> vm.pools[i].Structured()
    ensures forall i :: 0 <= i < |vm.pools| ==> vm.pools[i].States() == Collected(old(vm.pools[i].States()), marks)
  {
    marks := vm.Collect(g, true, from);
    forall o | o in h.body ensures o.body == h.body[o] && (o.marked <==> o in kept) {
      assert InPool(vm.pools, where_, o);
      ReadyObject(vm.pools[where_[o]], h, kept, o);
    }
  }

  /** Two collections in a row; h is the heap between them, and kept are the marks still set there. */
  method CollectBoth(vm: Vm, ghost g: Graph, ghost from: set<Managed>, ghost h: Graph, ghost kept: set<Managed>,
                     ghost where_: map<Managed, nat>)
    returns (ghost first: set<Managed>, ghost second: set<Managed>)
    requires vm.Apart(g) && Located(vm.pools, where_) && where_.Keys == h.body.Keys == g.body.Keys
    requires kept <= h.body.Keys
    requires forall i :: 0 <= i < |vm.pools| ==> vm.pools[i].Structured()
    requires vm.Start().Valid(g) && vm.Start().Valid(h) && Shows(g) && Marks(g) == from
    requires forall i :: 0 <= i < |vm.pools| ==>
      Ready(Collected(vm.pools[i].States(), ScanFrom(g, vm.Start(), from)), h, kept)
    modifies vm`gcPhase, vm.blocks, g.body.Keys
    ensures first == ScanFrom(g, old(vm.Start()), from) && second == ScanFrom(h, old(vm.Start()), kept)
    ensures forall i :: 0 <= i < |vm.pools| ==>
      vm.pools[i].States() == Collected(Collected(old(vm.pools[i].States()), first), second)
  {
    ApartBoth(vm, g, h);
    first := CollectTo(vm, g, from, h, kept, where_);
    second := vm.Collect(h, true, kept);
  }

  ghost function Remarked(s: map<Managed, State>, marks: set<Managed>): map<Managed, State> {
    map o | o in s :: s[o].(marked := o in marks)
  }

  lemma RemarkedBy(s: map<Managed, State>, t: map<Managed, State>, marks: set<Managed>)
    requires t.Keys == s.Keys && forall o :: o in t ==> t[o] == s[o].(marked := o in marks)
    ensures t == Remarked(s, marks)
  {
  }

  /** What a collection makes of the states of the slots. */
  ghost function Collected(s: map<Managed, State>, marks: set<Managed>): map<Managed, State> {
    AllSwept(Remarked(s, marks))
  }

  /** When at most the mark bits of its slots have changed. */
  twostate lemma PoolRemarked(p: Pool)
    requires unchanged(p) && (forall b :: b in p.view.depth ==> unchanged(b))
    requires forall o :: o in p.view.home ==> o.body == old(o.body)
    ensures p.Structured() == old(p.Structured()) && p.view.Counted() == old(p.view.Counted())
    ensures p.States().Keys == old(p.States()).Keys
    ensures forall o :: o in p.States() ==> o in p.view.home && p.States()[o] == old(p.States())[o].(marked := o.marked)
  {
  }

  twostate lemma PoolStays(p: Pool)
    requires unchanged(p) && (forall b :: b in p.view.depth ==> unchanged(b))
      && (forall o :: o in p.view.home ==> unchanged(o))
    ensures p.Structured() == old(p.Structured()) && p.States() == old(p.States())
    ensures p.view.Counted() == old(p.view.Counted())
  {
  }
}
