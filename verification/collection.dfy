/** What collections free and keep. */
module Collection {
  import opened Heap
  import opened Tracing
  import opened Exactness
  import opened Leaves
  import Jumps
  import opened LostParts
  import opened Slots
  import opened Collector

  /** s holds the states of the slots of heap g. A mark bit that is set is one on a free slot that
      points at nothing. */
  ghost predicate Fits(g: Graph, s: map<Managed, State>) {
    && s.Keys == g.body.Keys && (forall o :: o in s ==> s[o].body == g.body[o])
    && forall o :: o in s && s[o].marked ==> !s[o].used && Successors(g.body[o]) == {}
  }

  ghost function MarkedIn(s: map<Managed, State>): set<Managed> {
    set o | o in s && s[o].marked
  }

  ghost function Needed(g: Graph, roots: Roots): set<Managed> {
    Reach(g, roots.Objects())
  }

  /** The guard of MarkedIffReachable. */
  ghost predicate Guarded(g: Graph, roots: Roots) {
    var s := Needed(g, roots);
    SuperLinked(g, s) && OwnTables(g, s, roots.globals) && NoPartReference(g, s)
  }

  ghost function After(g: Graph, roots: Roots, s: map<Managed, State>): map<Managed, State>
    requires roots.Valid(g)
  {
    Collected(s, ScanFrom(g, roots, MarkedIn(s)))
  }

  /** What a collection makes of an object: it stays allocated, unchanged and with clear bits, iff it
      was and is marked or new; and a free slot that is marked keeps its mark. */
  lemma WhatIsKept(g: Graph, roots: Roots, s: map<Managed, State>, o: Managed)
    requires roots.Valid(g) && Fits(g, s) && o in s
    ensures o in After(g, roots, s)
    ensures var t := After(g, roots, s)[o];
      && (t.used <==> s[o].used && (o in ScanRoots(g, roots) || s[o].created))
      && (t.used ==> t == State(true, false, false, g.body[o]))
      && (t.marked <==> !s[o].used && (o in ScanRoots(g, roots) || s[o].marked))
  {
    MarksOnLeavesStay(g, roots, MarkedIn(s));
  }

  /** Guarded or not, a collection frees every allocated object that is neither reachable nor new, and
      changes nothing in what it keeps. */
  lemma GarbageIsFreed(g: Graph, roots: Roots, s: map<Managed, State>, o: Managed)
    requires roots.Valid(g) && Fits(g, s) && o in s
    ensures o in After(g, roots, s)
    ensures After(g, roots, s)[o].used ==>
      s[o].used && (o in Needed(g, roots) || s[o].created)
        && After(g, roots, s)[o] == State(true, false, false, g.body[o])
  {
    WhatIsKept(g, roots, s, o);
    OnlyReachableMarked(g, roots);
  }

  /** A guarded collection frees exactly those; the marks it leaves are those on free slots that can
      be reached, or were marked. */
  lemma FreedExactly(g: Graph, roots: Roots, s: map<Managed, State>, o: Managed)
    requires roots.Valid(g) && Fits(g, s) && Guarded(g, roots) && o in s
    ensures o in After(g, roots, s)
    ensures After(g, roots, s)[o].used <==> s[o].used && (o in Needed(g, roots) || s[o].created)
    ensures After(g, roots, s)[o].marked <==> !s[o].used && (o in Needed(g, roots) || s[o].marked)
  {
    WhatIsKept(g, roots, s, o);
    MarkedIffReachable(g, roots);
  }

  /** What can be reached is allocated. */
  ghost predicate Live(g: Graph, roots: Roots, s: map<Managed, State>) {
    forall o :: o in Needed(g, roots) ==> o in s && s[o].used
  }

  /** So all mark bits are clear behind a guarded collection iff no free slot can be reached. */
  lemma BitsAreClearIffLive(g: Graph, roots: Roots, s: map<Managed, State>)
    requires roots.Valid(g) && Fits(g, s) && Guarded(g, roots) && MarkedIn(s) == {}
    ensures MarkedIn(After(g, roots, s)) == {} <==> Live(g, roots, s)
  {
    forall o | o in s ensures o in MarkedIn(After(g, roots, s)) <==> !s[o].used && o in Needed(g, roots) {
      FreedExactly(g, roots, s, o);
      assert o !in MarkedIn(s);
    }
    if Live(g, roots, s) {
      assert MarkedIn(After(g, roots, s)) == {};
    } else {
      var o :| o in Needed(g, roots) && !(o in s && s[o].used);
      assert o in MarkedIn(After(g, roots, s));
    }
  }

  /** The heap after a collection. */
  ghost function Rest(g: Graph, t: map<Managed, State>): Graph {
    Graph(map o | o in t :: t[o].body, g.rank)
  }

  lemma RestKeeps(g: Graph, roots: Roots, s: map<Managed, State>, o: Managed)
    requires roots.Valid(g) && Fits(g, s) && o in g.body
    ensures var h := Rest(g, After(g, roots, s));
      o in h.body && (h.body[o] == g.body[o] || h.body[o] == Emptied(g.body[o]))
  {
  }

  lemma RestIsValid(g: Graph, roots: Roots, s: map<Managed, State>)
    requires roots.Valid(g) && Fits(g, s)
    ensures roots.Valid(Rest(g, After(g, roots, s)))
  {
    var h := Rest(g, After(g, roots, s));
    assert h.body.Keys == g.body.Keys;
    forall o | o in g.body ensures h.body[o] == g.body[o] || h.body[o] == Emptied(g.body[o]) {
      RestKeeps(g, roots, s, o);
    }
    forall o | o in h.body ensures h.ValidAt(o) {
      assert g.ValidAt(o);
      SameKinds(g, h, o);
    }
    SameRoots(g, h, roots);
  }

  lemma SameRoots(g: Graph, h: Graph, roots: Roots)
    requires g.body.Keys == h.body.Keys && g.rank == h.rank && roots.Valid(g) && h.Valid()
    requires forall x :: x in g.body ==> h.body[x] == g.body[x] || h.body[x] == Emptied(g.body[x])
    ensures roots.Valid(h)
  {
  }

  lemma SameKinds(g: Graph, h: Graph, o: Managed)
    requires g.body.Keys == h.body.Keys && g.rank == h.rank
    requires forall x :: x in g.body ==> h.body[x] == g.body[x] || h.body[x] == Emptied(g.body[x])
    requires o in g.body && g.ValidAt(o)
    ensures h.ValidAt(o)
  {
  }

  /** What can be reached stays as it was. */
  lemma NeededStays(g: Graph, roots: Roots, s: map<Managed, State>, o: Managed)
    requires roots.Valid(g) && Fits(g, s) && Guarded(g, roots) && o in Needed(g, roots)
    ensures o in g.body && Rest(g, After(g, roots, s)).body[o] == g.body[o]
  {
    FreedExactly(g, roots, s, o);
    GarbageIsFreed(g, roots, s, o);
  }

  lemma ClosedAcross(g: Graph, h: Graph, s: set<Managed>)
    requires Closed(g, s) && g.body.Keys == h.body.Keys && forall o :: o in s ==> h.body[o] == g.body[o]
    ensures Closed(h, s)
  {
  }

  lemma NeededIsClosed(g: Graph, roots: Roots)
    requires roots.Valid(g)
    ensures Closed(g, Needed(g, roots)) && roots.Objects() <= Needed(g, roots)
  {
    ReachIsClosed(g, roots.Objects());
  }

  lemma ReachWithin(g: Graph, h: Graph, roots: Roots, s: set<Managed>)
    requires Closed(g, s) && roots.Objects() <= s && g.body.Keys == h.body.Keys
    requires forall o :: o in s ==> h.body[o] == g.body[o]
    ensures Needed(h, roots) <= s
  {
    ClosedAcross(g, h, s);
    ReachIsLeast(h, roots.Objects(), s);
  }

  /** Heaps that agree on what can be reached in one of them reach the same. */
  lemma SameReach(g: Graph, h: Graph, roots: Roots, mine: set<Managed>, other: set<Managed>)
    requires Closed(g, mine) && Closed(h, other) && g.body.Keys == h.body.Keys
    requires roots.Objects() <= mine && roots.Objects() <= other
    requires mine == Needed(g, roots) && other == Needed(h, roots) && forall o :: o in mine ==> h.body[o] == g.body[o]
    ensures other == mine
  {
    ReachWithin(g, h, roots, mine);
    ReachWithin(h, g, roots, other);
  }

  lemma SameGuard(g: Graph, h: Graph, roots: Roots)
    requires roots.Valid(g) && roots.Valid(h) && g.body.Keys == h.body.Keys && Guarded(g, roots)
    requires Needed(h, roots) == Needed(g, roots) && Closed(g, Needed(g, roots))
    requires forall o :: o in Needed(g, roots) ==> h.body[o] == g.body[o]
    ensures Guarded(h, roots)
  {
    var s := Needed(g, roots);
    SameSupers(g, h, s);
    SamePartTables(g, h, s);
  }

  lemma SameSupers(g: Graph, h: Graph, s: set<Managed>)
    requires SuperLinked(g, s) && Closed(g, s) && g.body.Keys == h.body.Keys && forall o :: o in s ==>
      h.body[o] == g.body[o]
    ensures SuperLinked(h, s)
  {
    forall o | o in s && IsPart(h, o) && h.body[o].child.Ref? ensures HoldsSuper(h, h.body[o].child.item, o) {
      var d := g.body[o].child.item;
      assert d in Successors(g.body[o]) && HoldsSuper(g, d, o);
      assert VariablesOf(g, d) in Successors(g.body[d]);
    }
  }

  lemma SamePartTables(g: Graph, h: Graph, s: set<Managed>)
    requires Closed(g, s) && g.body.Keys == h.body.Keys && forall o :: o in s ==> h.body[o] == g.body[o]
    ensures forall t :: t in g.body && PartTable(h, s, t) ==> PartTable(g, s, t)
  {
    forall t | t in g.body && PartTable(h, s, t) ensures PartTable(g, s, t) {
      var o :| o in s && IsPart(h, o) && h.body[o].child.Ref? && VariablesOf(h, h.body[o].child.item) == t;
      assert h.body[o].child.item in Successors(g.body[o]);
      assert IsPart(g, o) && VariablesOf(g, g.body[o].child.item) == t;
    }
  }

  /** Free slots that can be reached point at nothing: freeing has emptied them. */
  ghost predicate FreeIsEmpty(g: Graph, roots: Roots, s: map<Managed, State>) {
    forall o :: o in Needed(g, roots) ==> o in s && (s[o].used || Successors(g.body[o]) == {})
  }

  /** After a collection everything is ready for the next. */
  lemma ReadyAgain(g: Graph, roots: Roots, s: map<Managed, State>)
    requires roots.Valid(g) && Fits(g, s) && FreeIsEmpty(g, roots, s) && Guarded(g, roots)
    ensures var t := After(g, roots, s); var h := Rest(g, t);
      && roots.Valid(h) && Fits(h, t) && FreeIsEmpty(h, roots, t) && Guarded(h, roots)
      && Needed(h, roots) == Needed(g, roots)
  {
    var t := After(g, roots, s);
    var h := Rest(g, t);
    RestIsValid(g, roots, s);
    RestFits(g, roots, s);
    SameNeeded(g, roots, s, h);
    SameGuard(g, h, roots);
    forall x | x in Needed(g, roots) ensures x in t && (t[x].used || Successors(h.body[x]) == {}) {
      NeededStays(g, roots, s, x);
      FreedExactly(g, roots, s, x);
    }
  }

  lemma SameNeeded(g: Graph, roots: Roots, s: map<Managed, State>, h: Graph)
    requires roots.Valid(g) && Fits(g, s) && Guarded(g, roots) && h == Rest(g, After(g, roots, s)) && roots.Valid(h)
    requires h.body.Keys == g.body.Keys
    ensures Needed(h, roots) == Needed(g, roots) && Closed(g, Needed(g, roots))
    ensures forall o :: o in Needed(g, roots) ==> h.body[o] == g.body[o]
  {
    forall x | x in Needed(g, roots) ensures x in g.body && h.body[x] == g.body[x] {
      NeededStays(g, roots, s, x);
    }
    NeededIsClosed(g, roots);
    NeededIsClosed(h, roots);
    SameReach(g, h, roots, Needed(g, roots), Needed(h, roots));
  }

  lemma RestFits(g: Graph, roots: Roots, s: map<Managed, State>)
    requires roots.Valid(g) && Fits(g, s) && FreeIsEmpty(g, roots, s) && Guarded(g, roots)
    ensures Fits(Rest(g, After(g, roots, s)), After(g, roots, s))
      && Rest(g, After(g, roots, s)).body.Keys == g.body.Keys
  {
    var t := After(g, roots, s);
    forall x | x in s ensures x in t && (t[x].marked ==> !t[x].used && Successors(t[x].body) == {}) {
      FreedExactly(g, roots, s, x);
    }
  }

  /** What became of object o: it stays allocated exactly when it is needed or new, and unchanged. */
  ghost predicate Decided(g: Graph, roots: Roots, o: Managed, before: State, after: State)
    requires o in g.body
  {
    && (after.used <==> before.used && (o in Needed(g, roots) || before.created))
    && (after.used ==> after == State(true, false, false, g.body[o]))
    && (after.marked <==> !before.used && (o in Needed(g, roots) || before.marked))
  }

  ghost predicate PartOf(pool: map<Managed, State>, s: map<Managed, State>) {
    forall o :: o in pool ==> o in s && s[o] == pool[o]
  }

  /** Every slot of a pool. */
  ghost predicate AllDecided(g: Graph, roots: Roots, s: map<Managed, State>, t: map<Managed, State>) {
    t.Keys == s.Keys && forall o :: o in t ==> o in g.body && Decided(g, roots, o, s[o], t[o])
  }

  lemma DecidedInPool(g: Graph, roots: Roots, s: map<Managed, State>, pool: map<Managed, State>)
    requires roots.Valid(g) && Fits(g, s) && Guarded(g, roots) && PartOf(pool, s)
    ensures AllDecided(g, roots, pool, Collected(pool, ScanFrom(g, roots, MarkedIn(s))))
  {
    forall o | o in pool ensures o in g.body && Decided(g, roots, o, s[o], After(g, roots, s)[o]) {
      FreedExactly(g, roots, s, o);
      GarbageIsFreed(g, roots, s, o);
    }
  }

  /** What two collections leave of object o. */
  ghost predicate KeptIfNeeded(g: Graph, roots: Roots, s: map<Managed, State>, o: Managed, after: State) {
    && o in g.body && o in s
    && (after.used <==> s[o].used && o in Needed(g, roots))
    && (after.used ==> after == State(true, false, false, g.body[o]))
    && (after.marked <==> !s[o].used && (o in Needed(g, roots) || s[o].marked))
  }

  /** Two collections leave exactly what is needed, unchanged. */
  ghost predicate OnlyNeeded(g: Graph, roots: Roots, s: map<Managed, State>, t: map<Managed, State>) {
    t.Keys == s.Keys && forall o :: o in t ==> KeptIfNeeded(g, roots, s, o, t[o])
  }

  /** When two collections have each left what they should, from heap g and then from heap h. */
  lemma TwiceDecided(g: Graph, h: Graph, roots: Roots, s: map<Managed, State>, t: map<Managed, State>,
                     u: map<Managed, State>)
    requires AllDecided(g, roots, s, t) && AllDecided(h, roots, t, u)
    requires Needed(h, roots) == Needed(g, roots)
    requires forall o :: o in Needed(g, roots) && o in g.body && o in h.body ==> h.body[o] == g.body[o]
    requires forall o :: o in t && t[o].created ==> !t[o].used
    ensures OnlyNeeded(g, roots, s, u)
  {
    forall o | o in u ensures KeptIfNeeded(g, roots, s, o, u[o]) {
      assert Decided(h, roots, o, t[o], u[o]) && Decided(g, roots, o, s[o], t[o]);
    }
  }

  /** Two collections in a row leave exactly what can be reached allocated. */
  lemma TwoCollections(g: Graph, roots: Roots, s: map<Managed, State>, h: Graph)
    requires roots.Valid(g) && Fits(g, s) && FreeIsEmpty(g, roots, s) && Guarded(g, roots)
    requires h == Rest(g, After(g, roots, s))
    ensures roots.Valid(h) && OnlyNeeded(g, roots, s, After(h, roots, After(g, roots, s)))
  {
    var t := After(g, roots, s);
    ReadyAgain(g, roots, s);
    SameNeeded(g, roots, s, h);
    DecidedInPool(g, roots, s, s);
    DecidedInPool(h, roots, t, t);
    NewOnesAreOld(g, roots, s);
    TwiceDecided(g, h, roots, s, t, After(h, roots, t));
  }

  lemma NewOnesAreOld(g: Graph, roots: Roots, s: map<Managed, State>)
    requires roots.Valid(g) && Fits(g, s)
    ensures forall o :: o in After(g, roots, s) && After(g, roots, s)[o].created ==> !After(g, roots, s)[o].used
  {
    forall o | o in After(g, roots, s) && After(g, roots, s)[o].created ensures !After(g, roots, s)[o].used {
      WhatIsKept(g, roots, s, o);
    }
  }

  // ----- free slots that can be reached -----

  /** A frame that is used again keeps the last result of the call before, until its own first
      statement has run; the item there may have been freed. */
  function Reused(frame: Managed, globals: Managed, item: Managed): Graph {
    Graph(map[frame := Frame(Ref(item), Null, null, null, null), globals := Table([]), item := Plain],
          map[frame := 0, globals := 0, item := 0])
  }

  function ReusedStates(frame: Managed, globals: Managed, item: Managed): map<Managed, State> {
    map[frame := State(true, true, false, Frame(Ref(item), Null, null, null, null)),
        globals := State(true, false, false, Table([])), item := State(false, false, false, Plain)]
  }

  lemma ReusedFits(frame: Managed, globals: Managed, item: Managed)
    requires frame != globals && globals != item && item != frame
    ensures Roots([], Null, globals, frame).Valid(Reused(frame, globals, item))
    ensures Fits(Reused(frame, globals, item), ReusedStates(frame, globals, item))
    ensures MarkedIn(ReusedStates(frame, globals, item)) == {}
    ensures Guarded(Reused(frame, globals, item), Roots([], Null, globals, frame))
  {
  }

  /** Behind a collection before that statement the free item is marked. */
  lemma ReusedFrameLeavesAMark(frame: Managed, globals: Managed, item: Managed)
    requires frame != globals && globals != item && item != frame
    ensures var g, roots := Reused(frame, globals, item), Roots([], Null, globals, frame);
      var s := ReusedStates(frame, globals, item);
      && roots.Valid(g) && Fits(g, s) && MarkedIn(s) == {} && Guarded(g, roots)
      && item in After(g, roots, s) && !After(g, roots, s)[item].used && After(g, roots, s)[item].marked
  {
    var g, roots := Reused(frame, globals, item), Roots([], Null, globals, frame);
    ReusedFits(frame, globals, item);
    ReachIsClosed(g, roots.Objects());
    assert item in Successors(g.body[frame]) && frame in roots.Objects();
    FreedExactly(g, roots, ReusedStates(frame, globals, item), item);
  }

  /** The parts that a collection loses are freed, unless they are new. */
  lemma LostPartsAreFreed(g: Graph, roots: Roots, e: Jumps.Entry, parts: seq<Managed>, tables: seq<Managed>, k: nat,
                          lost: set<Managed>, i: nat, s: map<Managed, State>)
    requires Referred(g, roots, e, parts, tables, k, lost) && k < i < |parts| && Fits(g, s)
    ensures parts[i] in s && parts[i] in Needed(g, roots) && parts[i] in After(g, roots, s)
    ensures After(g, roots, s)[parts[i]].used <==> s[parts[i]].used && s[parts[i]].created
  {
    PartsBelowAreLost(g, roots, e, parts, tables, k, lost, i);
    WhatIsKept(g, roots, s, parts[i]);
  }

  // ----- all pools together -----

  /** The states of the slots of all pools. */
  ghost function Union(pools: seq<map<Managed, State>>): map<Managed, State> {
    if pools == [] then map[] else Union(pools[..|pools| - 1]) + pools[|pools| - 1]
  }

  // ----- the collector at work -----

  lemma {:induction false} UnionAt(pools: seq<map<Managed, State>>, o: Managed) returns (i: nat)
    requires o in Union(pools)
    ensures i < |pools| && o in pools[i] && Union(pools)[o] == pools[i][o]
  {
    i := |pools| - 1;
    if o !in pools[i] { i := UnionAt(pools[..i], o); }
  }

  lemma AllInUnion(vm: Vm, where_: map<Managed, nat>, all: seq<map<Managed, State>>)
    requires Located(vm.pools, where_) && |all| == |vm.pools|
    requires forall i :: 0 <= i < |vm.pools| ==> vm.pools[i].view.home.Keys <= all[i].Keys
    ensures where_.Keys <= Union(all).Keys
  {
    forall o | o in where_ ensures o in Union(all) {
      assert InPool(vm.pools, where_, o);
      InUnion(all, where_[o], o);
    }
  }

  lemma StatesFit(vm: Vm, g: Graph, all: seq<map<Managed, State>>, o: Managed)
    requires vm.Apart(g) && Shows(g)
    requires |all| == |vm.pools| && forall i :: 0 <= i < |vm.pools| ==> all[i] == vm.pools[i].States()
    requires o in Union(all)
    ensures o in g.body && Union(all)[o].body == g.body[o] && Union(all)[o].marked == (o in Marks(g))
  {
    var i := UnionAt(all, o);
    OwnState(vm, g, i, o);
  }

  /** Marks that are set rest on free slots that point at nothing. */
  ghost predicate AtRest(g: Graph, s: map<Managed, State>) {
    forall o :: o in s && s[o].marked ==> !s[o].used && o in g.body && Successors(g.body[o]) == {}
  }

  /** The states of the pools fit the heap when they are all of it. */
  lemma UnionFits(vm: Vm, g: Graph, where_: map<Managed, nat>, all: seq<map<Managed, State>>)
    requires vm.Apart(g) && Located(vm.pools, where_) && where_.Keys == g.body.Keys && Shows(g)
    requires |all| == |vm.pools| && forall i :: 0 <= i < |vm.pools| ==> all[i] == vm.pools[i].States()
    requires forall i :: 0 <= i < |vm.pools| ==> vm.pools[i].view.home.Keys <= all[i].Keys
    requires AtRest(g, Union(all))
    ensures Fits(g, Union(all)) && MarkedIn(Union(all)) == Marks(g)
  {
    AllInUnion(vm, where_, all);
    forall o | o in Union(all)
      ensures o in g.body && Union(all)[o].body == g.body[o] && Union(all)[o].marked == (o in Marks(g))
    {
      StatesFit(vm, g, all, o);
    }
    SameMarks(g, Union(all), Marks(g));
  }

  lemma SameMarks(g: Graph, s: map<Managed, State>, marks: set<Managed>)
    requires g.body.Keys <= s.Keys && marks <= g.body.Keys && forall o :: o in s ==> s[o].marked == (o in marks)
    ensures MarkedIn(s) == marks
  {
  }

  lemma OwnState(vm: Vm, g: Graph, i: nat, o: Managed)
    requires vm.Apart(g) && Shows(g)
    requires i < |vm.pools| && o in vm.pools[i].States()
    ensures o in g.body && vm.pools[i].States()[o].body == g.body[o]
    ensures vm.pools[i].States()[o].marked == (o in Marks(g))
  {
    StateIsObject(vm.pools[i], o);
  }

  lemma {:induction false} InUnion(pools: seq<map<Managed, State>>, i: nat, o: Managed)
    requires i < |pools| && o in pools[i]
    ensures o in Union(pools)
  {
    if i < |pools| - 1 { InUnion(pools[..|pools| - 1], i, o); }
  }

  /** The pool that holds an object is the only one. */
  lemma OnlyPool(vm: Vm, g: Graph, all: seq<map<Managed, State>>, i: nat, o: Managed)
    requires vm.Apart(g) && |all| == |vm.pools| && forall j :: 0 <= j < |vm.pools| ==> all[j] == vm.pools[j].States()
    requires i < |all| && o in all[i]
    ensures o in Union(all) && Union(all)[o] == all[i][o]
  {
    InUnion(all, i, o);
    var j := UnionAt(all, o);
    StateIsObject(vm.pools[i], o);
    StateIsObject(vm.pools[j], o);
  }

  /** The states of all pools before a collection. */
  lemma PoolsFit(vm: Vm, g: Graph, where_: map<Managed, nat>, all: seq<map<Managed, State>>)
    requires vm.Apart(g) && Located(vm.pools, where_) && where_.Keys == g.body.Keys && Shows(g)
    requires forall i :: 0 <= i < |vm.pools| ==> vm.pools[i].Structured()
    requires |all| == |vm.pools| && forall i :: 0 <= i < |vm.pools| ==> all[i] == vm.pools[i].States()
    requires AtRest(g, Union(all))
    ensures Fits(g, Union(all)) && MarkedIn(Union(all)) == Marks(g)
    ensures forall i :: 0 <= i < |all| ==> PartOf(all[i], Union(all))
  {
    forall i | 0 <= i < |vm.pools| ensures vm.pools[i].view.home.Keys <= all[i].Keys {
      forall o | o in vm.pools[i].view.home ensures o in all[i] { HasState(vm.pools[i], o); }
    }
    UnionFits(vm, g, where_, all);
    forall i | 0 <= i < |all| ensures PartOf(all[i], Union(all)) {
      forall o | o in all[i] ensures o in Union(all) && Union(all)[o] == all[i][o] { OnlyPool(vm, g, all, i, o); }
    }
  }

  /** A collection of the whole heap, object by object. */
  method CollectGuarded(vm: Vm, ghost g: Graph, ghost where_: map<Managed, nat>, ghost all: seq<map<Managed, State>>)
    requires vm.Apart(g) && Located(vm.pools, where_) && where_.Keys == g.body.Keys
    requires forall i :: 0 <= i < |vm.pools| ==> vm.pools[i].Structured()
    requires vm.Start().Valid(g) && Shows(g)
    requires |all| == |vm.pools| && forall i :: 0 <= i < |vm.pools| ==> all[i] == vm.pools[i].States()
    requires AtRest(g, Union(all)) && Guarded(g, vm.Start())
    modifies vm`gcPhase, vm.blocks, g.body.Keys
    ensures forall i :: 0 <= i < |vm.pools| ==> AllDecided(g, old(vm.Start()), all[i], vm.pools[i].States())
  {
    PoolsFit(vm, g, where_, all);
    ghost var from := MarkedIn(Union(all));
    forall i | 0 <= i < |all|
      ensures AllDecided(g, vm.Start(), all[i], Collected(all[i], ScanFrom(g, vm.Start(), from)))
    {
      DecidedInPool(g, vm.Start(), Union(all), all[i]);
    }
    ghost var marks := vm.Collect(g, true, from);
  }

  /** In this pool the first collection leads to heap h with these marks, and the second to what is
      needed. */
  ghost predicate Foreseen(g: Graph, from: set<Managed>, roots: Roots, h: Graph, kept: set<Managed>,
                           pool: map<Managed, State>)
    requires roots.Valid(g) && roots.Valid(h)
  {
    && Ready(Collected(pool, ScanFrom(g, roots, from)), h, kept)
    && OnlyNeeded(g, roots, pool, Collected(Collected(pool, ScanFrom(g, roots, from)), ScanFrom(h, roots, kept)))
  }

  lemma ForeseenInPool(g: Graph, roots: Roots, s: map<Managed, State>, h: Graph, pool: map<Managed, State>)
    requires roots.Valid(g) && Fits(g, s) && FreeIsEmpty(g, roots, s) && Guarded(g, roots) && PartOf(pool, s)
    requires roots.Valid(h) && h == Rest(g, After(g, roots, s))
    ensures Foreseen(g, MarkedIn(s), roots, h, MarkedIn(After(g, roots, s)), pool)
  {
    ReadyInPool(s, pool, ScanFrom(g, roots, MarkedIn(s)), h);
    TwoCollections(g, roots, s, h);
    NeededInPart(g, roots, s, pool, ScanFrom(g, roots, MarkedIn(s)), ScanFrom(h, roots, MarkedIn(After(g, roots, s))));
  }

  lemma NeededInPart(g: Graph, roots: Roots, s: map<Managed, State>, pool: map<Managed, State>, first: set<Managed>,
                     second: set<Managed>)
    requires PartOf(pool, s) && OnlyNeeded(g, roots, s, Collected(Collected(s, first), second))
    ensures OnlyNeeded(g, roots, pool, Collected(Collected(pool, first), second))
  {
    forall o | o in pool
      ensures Collected(Collected(pool, first), second)[o] == Collected(Collected(s, first), second)[o]
    {
      CollectedAt(s, pool, first, o);
      CollectedAt(Collected(s, first), Collected(pool, first), second, o);
    }
  }

  /** The heap between two collections is what the first one leaves in every pool. */
  lemma ReadyInPool(s: map<Managed, State>, pool: map<Managed, State>, marks: set<Managed>, h: Graph)
    requires PartOf(pool, s) && h.body == map o | o in Collected(s, marks) :: Collected(s, marks)[o].body
    ensures Ready(Collected(pool, marks), h, MarkedIn(Collected(s, marks)))
  {
    forall o | o in pool ensures o in Collected(s, marks) && Collected(pool, marks)[o] == Collected(s, marks)[o] {
      CollectedAt(s, pool, marks, o);
    }
  }

  lemma CollectedAt(s: map<Managed, State>, t: map<Managed, State>, marks: set<Managed>, o: Managed)
    requires o in s && o in t && s[o] == t[o]
    ensures o in Collected(s, marks) && o in Collected(t, marks) && Collected(s, marks)[o] == Collected(t, marks)[o]
  {
  }

  /** Everything is ready for the second collection before the first. */
  lemma Between(g: Graph, roots: Roots, s: map<Managed, State>, all: seq<map<Managed, State>>)
    returns (h: Graph, kept: set<Managed>)
    requires roots.Valid(g) && Fits(g, s) && FreeIsEmpty(g, roots, s) && Guarded(g, roots)
    requires forall i :: 0 <= i < |all| ==> PartOf(all[i], s)
    ensures roots.Valid(h) && h.body.Keys == g.body.Keys && kept <= h.body.Keys
    ensures forall i :: 0 <= i < |all| ==> Foreseen(g, MarkedIn(s), roots, h, kept, all[i])
  {
    h := Rest(g, After(g, roots, s));
    kept := MarkedIn(After(g, roots, s));
    ReadyAgain(g, roots, s);
    forall i | 0 <= i < |all| ensures Foreseen(g, MarkedIn(s), roots, h, kept, all[i]) {
      ForeseenInPool(g, roots, s, h, all[i]);
    }
  }

  method CollectInto(vm: Vm, ghost g: Graph, ghost from: set<Managed>, ghost h: Graph, ghost kept: set<Managed>,
                     ghost where_: map<Managed, nat>, ghost all: seq<map<Managed, State>>)
    requires vm.Apart(g) && Located(vm.pools, where_) && where_.Keys == h.body.Keys == g.body.Keys
    requires kept <= h.body.Keys
    requires forall i :: 0 <= i < |vm.pools| ==> vm.pools[i].Structured()
    requires vm.Start().Valid(g) && vm.Start().Valid(h) && Shows(g) && Marks(g) == from
    requires |all| == |vm.pools| && forall i :: 0 <= i < |vm.pools| ==> all[i] == vm.pools[i].States()
    requires forall i :: 0 <= i < |all| ==> Foreseen(g, from, vm.Start(), h, kept, all[i])
    modifies vm`gcPhase, vm.blocks, g.body.Keys
    ensures forall i :: 0 <= i < |vm.pools| ==> OnlyNeeded(g, old(vm.Start()), all[i], vm.pools[i].States())
  {
    ghost var first, second := CollectBoth(vm, g, from, h, kept, where_);
  }

  /** Two collections in a row, object by object. */
  method CollectTwice(vm: Vm, ghost g: Graph, ghost where_: map<Managed, nat>, ghost all: seq<map<Managed, State>>)
    requires vm.Apart(g) && Located(vm.pools, where_) && where_.Keys == g.body.Keys
    requires forall i :: 0 <= i < |vm.pools| ==> vm.pools[i].Structured()
    requires vm.Start().Valid(g) && Shows(g)
    requires |all| == |vm.pools| && forall i :: 0 <= i < |vm.pools| ==> all[i] == vm.pools[i].States()
    requires AtRest(g, Union(all)) && FreeIsEmpty(g, vm.Start(), Union(all)) && Guarded(g, vm.Start())
    modifies vm`gcPhase, vm.blocks, g.body.Keys
    ensures forall i :: 0 <= i < |vm.pools| ==> OnlyNeeded(g, old(vm.Start()), all[i], vm.pools[i].States())
  {
    PoolsFit(vm, g, where_, all);
    ghost var from := MarkedIn(Union(all));
    ghost var h, kept := Between(g, vm.Start(), Union(all), all);
    CollectInto(vm, g, from, h, kept, where_, all);
  }
}
