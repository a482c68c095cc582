/** Objects that a collection tears apart: their superclass parts can be reached and are freed. */
module LostParts {
  import opened Heap
  import opened Tracing
  import opened Exactness
  import opened Jumps
  import opened Seqs

  /** Part i of an instance, linked to its neighbours as object construction links it; its table
      holds whatever members the class has. */
  ghost predicate PartAt(g: Graph, parts: seq<Managed>, tables: seq<Managed>, i: nat)
    requires |parts| == |tables| && i < |parts|
  {
    && parts[i] in g.body && g.body[parts[i]] == Part(false, tables[i], if i == 0 then Null else Ref(parts[i - 1]))
    && tables[i] in g.body && g.body[tables[i]].Table?
    && (i < |parts| - 1 ==> Slot(SUPER, Ref(parts[i + 1])) in g.body[tables[i]].slots)
  }

  /** One instance: parts from most to least derived, each with its table of variables. */
  ghost predicate Instance(g: Graph, parts: seq<Managed>, tables: seq<Managed>) {
    |parts| == |tables| > 0 && forall i {:trigger PartAt(g, parts, tables, i)} :: 0 <= i < |parts| ==>
      PartAt(g, parts, tables, i)
  }

  lemma {:induction false} TopOfPart(g: Graph, parts: seq<Managed>, tables: seq<Managed>, i: nat)
    requires g.Valid() && Instance(g, parts, tables) && i < |parts|
    ensures g.Item(Ref(parts[i])) && Top(g, Ref(parts[i])) == Ref(parts[0])
  {
    assert PartAt(g, parts, tables, i) && g.ValidAt(parts[i]);
    if i > 0 { TopOfPart(g, parts, tables, i - 1); }
  }

  /** Nothing that can be reached leads into lost, but for the entries of t that hold x. */
  ghost predicate SealedBut(g: Graph, all: set<Managed>, lost: set<Managed>, t: Managed, x: Managed) {
    && (forall o {:trigger Successors(g.body[o])} :: o in all && o in g.body && o !in lost && o != t ==>
          Successors(g.body[o]) !! lost)
    && forall y :: y in AllRefs(ValuesOf(SlotsOf(g, t))) && y in lost ==> y == x
  }

  ghost function SlotsOf(g: Graph, t: Managed): seq<Slot> {
    if t in g.body && g.body[t].Table? then g.body[t].slots else []
  }

  /** A collection that comes to the members of part k through a reference, as when "x.member = ..."
      is being evaluated or was the last statement. lost holds the parts below k, which nothing but
      the "super" slot of part k leads to; no root is among them. */
  ghost predicate Referred(g: Graph, roots: Roots, e: Entry, parts: seq<Managed>, tables: seq<Managed>, k: nat,
                           lost: set<Managed>) {
    && roots.Valid(g) && Instance(g, parts, tables) && k < |parts| && EntersThrough(g, roots, e, tables[k])
    && (forall j :: k < j < |parts| ==> parts[j] in lost)
    && parts[0] !in lost && tables[k] !in lost && roots.Objects() !! lost
    && (k < |parts| - 1 ==> SealedBut(g, Reach(g, roots.Objects()), lost, tables[k], parts[k + 1]))
  }

  lemma PartSuccessors(g: Graph, parts: seq<Managed>, tables: seq<Managed>, i: nat)
    requires Instance(g, parts, tables) && i < |parts|
    ensures parts[i] in g.body && tables[i] in g.body && tables[i] in Successors(g.body[parts[i]])
    ensures i > 0 ==> parts[i - 1] in Successors(g.body[parts[i]])
    ensures i < |parts| - 1 ==> parts[i + 1] in Successors(g.body[tables[i]])
  {
    assert PartAt(g, parts, tables, i);
    if i < |parts| - 1 { SuperIsSuccessor(g, tables[i], parts[i + 1]); }
  }

  lemma {:induction false} PartsBelowIn(g: Graph, s: set<Managed>, parts: seq<Managed>, tables: seq<Managed>, k: nat,
                                        i: nat)
    requires Closed(g, s) && Instance(g, parts, tables) && k < i < |parts| && tables[k] in s
    ensures parts[i] in s
    decreases i
  {
    PartSuccessors(g, parts, tables, i - 1);
    if i > k + 1 {
      PartsBelowIn(g, s, parts, tables, k, i - 1);
      assert Successors(g.body[parts[i - 1]]) <= s;
    }
    assert Successors(g.body[tables[i - 1]]) <= s;
  }

  /** The most derived part is found without passing through lost. */
  lemma TopsOutside(g: Graph, parts: seq<Managed>, tables: seq<Managed>, k: nat, s: set<Managed>, lost: set<Managed>,
                    v: Value)
    requires g.Valid() && Instance(g, parts, tables) && k + 1 < |parts| && g.Item(v) && ChildrenIn(g, s)
    requires v.Ref? ==> v.item in s || v.item == parts[k + 1]
    requires parts[0] in s
    ensures Refs(Top(g, v)) <= s
  {
    if v.Ref? && v.item == parts[k + 1] { TopOfPart(g, parts, tables, k + 1); } else { TopInside(g, s, v); }
  }

  /** Where the jumps stay. */
  ghost function Outside(g: Graph, roots: Roots, lost: set<Managed>): set<Managed> {
    Reach(g, roots.Objects()) - lost
  }

  lemma OutsideClosed(g: Graph, roots: Roots, e: Entry, parts: seq<Managed>, tables: seq<Managed>, k: nat,
                      lost: set<Managed>, o: Managed)
    requires Referred(g, roots, e, parts, tables, k, lost) && k + 1 < |parts|
    requires o in Outside(g, roots, lost) && o != tables[k]
    ensures Successors(g.body[o]) <= Outside(g, roots, lost)
  {
    ReachIsClosed(g, roots.Objects());
  }

  lemma TopPartOutside(g: Graph, roots: Roots, e: Entry, parts: seq<Managed>, tables: seq<Managed>, k: nat,
                       lost: set<Managed>)
    requires Referred(g, roots, e, parts, tables, k, lost) && k + 1 < |parts|
    ensures parts[0] in Outside(g, roots, lost) && tables[k] in Outside(g, roots, lost)
  {
    var all := Reach(g, roots.Objects());
    ReachIsClosed(g, roots.Objects());
    TargetReachable(g, roots, e, tables[k]);
    PartsBelowIn(g, all, parts, tables, k, k + 1);
    TopPartIn(g, all, parts, tables, k + 1);
  }

  lemma {:induction false} TopPartIn(g: Graph, s: set<Managed>, parts: seq<Managed>, tables: seq<Managed>, i: nat)
    requires Closed(g, s) && Instance(g, parts, tables) && i < |parts| && parts[i] in s
    ensures parts[0] in s
  {
    if i > 0 {
      PartSuccessors(g, parts, tables, i);
      assert Successors(g.body[parts[i]]) <= s;
      TopPartIn(g, s, parts, tables, i - 1);
    }
  }

  lemma OutsideConfines(g: Graph, roots: Roots, e: Entry, parts: seq<Managed>, tables: seq<Managed>, k: nat,
                        lost: set<Managed>)
    requires Referred(g, roots, e, parts, tables, k, lost) && k + 1 < |parts|
    ensures Confines(g, Outside(g, roots, lost), {tables[k]}) && Open(g, Outside(g, roots, lost), {}, tables[k], true)
    ensures Open(g, Outside(g, roots, lost), {tables[k]}, roots.globals, true)
  {
    forall o | o in Outside(g, roots, lost) ensures Follows(g, Outside(g, roots, lost), {tables[k]}, o) {
      OutsideFollows(g, roots, e, parts, tables, k, lost, o);
    }
    TargetOpen(g, roots, e, parts, tables, k, lost);
    ReachIsClosed(g, roots.Objects());
    OutsideOpen(g, roots, e, parts, tables, k, lost, roots.globals, true);
  }

  lemma TargetOpen(g: Graph, roots: Roots, e: Entry, parts: seq<Managed>, tables: seq<Managed>, k: nat,
                   lost: set<Managed>)
    requires Referred(g, roots, e, parts, tables, k, lost) && k + 1 < |parts|
    ensures g.TableOrNull(tables[k]) && Open(g, Outside(g, roots, lost), {}, tables[k], true)
  {
    var s, t := Outside(g, roots, lost), tables[k];
    assert PartAt(g, parts, tables, k) && g.ValidAt(t);
    TopPartOutside(g, roots, e, parts, tables, k, lost);
    OutsideChildren(g, roots, e, parts, tables, k, lost);
    var vs := ValuesOf(g.body[t].slots);
    forall i | 0 <= i < |vs| ensures Refs(Top(g, vs[i])) <= s {
      TargetValue(g, roots, e, parts, tables, k, lost, vs[i]);
      TopsOutside(g, parts, tables, k, s, lost, vs[i]);
    }
  }

  lemma TargetValue(g: Graph, roots: Roots, e: Entry, parts: seq<Managed>, tables: seq<Managed>, k: nat,
                    lost: set<Managed>, v: Value)
    requires Referred(g, roots, e, parts, tables, k, lost) && k + 1 < |parts| && g.body[tables[k]].Table?
    requires tables[k] in Outside(g, roots, lost) && v in ValuesOf(g.body[tables[k]].slots)
    ensures v.Ref? ==> v.item in Outside(g, roots, lost) || v.item == parts[k + 1]
  {
    ReachIsClosed(g, roots.Objects());
    if v.Ref? {
      assert v.item in AllRefs(ValuesOf(g.body[tables[k]].slots)) && v.item in Successors(g.body[tables[k]]);
    }
  }

  lemma OutsideChildren(g: Graph, roots: Roots, e: Entry, parts: seq<Managed>, tables: seq<Managed>, k: nat,
                        lost: set<Managed>)
    requires Referred(g, roots, e, parts, tables, k, lost) && k + 1 < |parts|
    ensures ChildrenIn(g, Outside(g, roots, lost))
  {
    assert PartAt(g, parts, tables, k);
    forall o | o in Outside(g, roots, lost) && IsPart(g, o) ensures Refs(g.body[o].child) <= Outside(g, roots, lost) {
      OutsideClosed(g, roots, e, parts, tables, k, lost, o);
    }
  }

  lemma OutsideOpen(g: Graph, roots: Roots, e: Entry, parts: seq<Managed>, tables: seq<Managed>, k: nat,
                    lost: set<Managed>, x: Managed?, top: bool)
    requires Referred(g, roots, e, parts, tables, k, lost) && k + 1 < |parts|
    requires g.TableOrNull(x) && Opt(x) <= Outside(g, roots, lost)
    ensures Open(g, Outside(g, roots, lost), {tables[k]}, x, top)
  {
    if x != null && x != tables[k] {
      OutsideClosed(g, roots, e, parts, tables, k, lost, x);
      OutsideChildren(g, roots, e, parts, tables, k, lost);
      assert g.ValidAt(x);
      TopsInside(g, Outside(g, roots, lost), ValuesOf(g.body[x].slots));
    }
  }

  lemma OutsideFollows(g: Graph, roots: Roots, e: Entry, parts: seq<Managed>, tables: seq<Managed>, k: nat,
                       lost: set<Managed>, o: Managed)
    requires Referred(g, roots, e, parts, tables, k, lost) && k + 1 < |parts| && o in Outside(g, roots, lost)
    ensures Follows(g, Outside(g, roots, lost), {tables[k]}, o)
  {
    var s := Outside(g, roots, lost);
    assert PartAt(g, parts, tables, k) && g.ValidAt(o);
    if o != tables[k] {
      OutsideClosed(g, roots, e, parts, tables, k, lost, o);
      match g.body[o] {
        case Part(_, vars, _) => OutsideOpen(g, roots, e, parts, tables, k, lost, vars, false);
        case TableReference(x) => OutsideOpen(g, roots, e, parts, tables, k, lost, x, true);
        case Vector(managed, items) =>
          OutsideChildren(g, roots, e, parts, tables, k, lost);
          if managed { TopsInside(g, s, items); }
        case Frame(_, _, locals, _, _) => OutsideOpen(g, roots, e, parts, tables, k, lost, locals, true);
        case _ =>
      }
    }
  }

  /** Before t is entered the scan has not come near lost. */
  lemma EarlierOutside(g: Graph, roots: Roots, e: Entry, parts: seq<Managed>, tables: seq<Managed>, k: nat,
                       lost: set<Managed>)
    requires Referred(g, roots, e, parts, tables, k, lost) && k + 1 < |parts|
    ensures Reach(g, Earlier(roots, e)) <= Outside(g, roots, lost)
  {
    var q, s := Reach(g, Earlier(roots, e)), Outside(g, roots, lost);
    EarlierInside(g, roots, e);
    ReachIsClosed(g, Earlier(roots, e));
    ReachIsClosed(g, roots.Objects());
    forall o | o in q * s ensures Successors(g.body[o]) <= q * s {
      assert Successors(g.body[o]) <= q;
      OutsideClosed(g, roots, e, parts, tables, k, lost, o);
    }
    ReachIsLeast(g, Earlier(roots, e), q * s);
  }

  /** Every part below the one referred to is reachable and yet not marked. */
  lemma PartsBelowAreLost(g: Graph, roots: Roots, e: Entry, parts: seq<Managed>, tables: seq<Managed>, k: nat,
                          lost: set<Managed>, i: nat)
    requires Referred(g, roots, e, parts, tables, k, lost) && k < i < |parts|
    ensures parts[i] in Reach(g, roots.Objects()) && parts[i] !in ScanRoots(g, roots)
  {
    var q, s := Reach(g, Earlier(roots, e)), Outside(g, roots, lost);
    TopPartOutside(g, roots, e, parts, tables, k, lost);
    ReachIsClosed(g, roots.Objects());
    PartsBelowIn(g, Reach(g, roots.Objects()), parts, tables, k, i);
    OutsideConfines(g, roots, e, parts, tables, k, lost);
    EarlierOutside(g, roots, e, parts, tables, k, lost);
    EarlierInside(g, roots, e);
    ReachIsClosed(g, Earlier(roots, e));
    ClosedConfines(g, q, {});
    if e.LastResult? { ClosedOpen(g, q, {}, roots.globals, true); }
    EnteredInside(g, roots, e, tables[k], q, s);
  }

  // ----- the exact condition -----

  /** No reference, frame or the globals lead to the members of a derived part, but for table t. */
  ghost predicate NoOtherPartReference(g: Graph, s: set<Managed>, globals: Managed, t: Managed) {
    forall x :: x in g.body && PartTable(g, s, x) && x != t ==> !TopTarget(g, s, globals, x)
  }

  /** The last part has no superclass part. */
  ghost predicate EndsThere(g: Graph, tables: seq<Managed>)
    requires tables != []
  {
    forall x :: x in g.body ==> Slot(SUPER, Ref(x)) !in SlotsOf(g, tables[|tables| - 1])
  }

  lemma LastTableIsFree(g: Graph, s: set<Managed>, tables: seq<Managed>)
    requires tables != [] && EndsThere(g, tables) && SuperLinked(g, s) && s <= g.body.Keys
    ensures !PartTable(g, s, tables[|tables| - 1])
  {
    var t := tables[|tables| - 1];
    forall o | o in s && IsPart(g, o) && g.body[o].child.Ref? ensures VariablesOf(g, g.body[o].child.item) != t {
      assert HoldsSuper(g, g.body[o].child.item, o);
    }
  }

  lemma NoPartTableFollowed(g: Graph, s: set<Managed>, globals: Managed, t: Managed, m: set<Managed>)
    requires SuperLinked(g, s) && NoOtherPartReference(g, s, globals, t) && !PartTable(g, s, t)
    ensures SupersFollowed(g, s, globals, m)
  {
    forall o | o in s && IsPart(g, o) && g.body[o].child.Ref?
      ensures VariablesOf(g, g.body[o].child.item) != null
        && !TopTarget(g, s, globals, VariablesOf(g, g.body[o].child.item))
    {
      assert HoldsSuper(g, g.body[o].child.item, o);
      assert PartTable(g, s, VariablesOf(g, g.body[o].child.item));
    }
  }

  lemma PartTableBelow(g: Graph, s: set<Managed>, parts: seq<Managed>, tables: seq<Managed>, k: nat)
    requires Instance(g, parts, tables) && k + 1 < |parts| && parts[k + 1] in s
    ensures PartTable(g, s, tables[k])
  {
    assert PartAt(g, parts, tables, k) && PartAt(g, parts, tables, k + 1);
    assert IsPart(g, parts[k + 1]) && VariablesOf(g, parts[k]) == tables[k];
  }

  lemma CompleteAtLastPart(g: Graph, roots: Roots, tables: seq<Managed>)
    requires roots.Valid(g) && tables != [] && EndsThere(g, tables)
    requires var s := Reach(g, roots.Objects());
      SuperLinked(g, s) && NoOtherPartReference(g, s, roots.globals, tables[|tables| - 1])
    ensures ScanRoots(g, roots) == Reach(g, roots.Objects())
      && !PartTable(g, Reach(g, roots.Objects()), tables[|tables| - 1])
  {
    var s := Reach(g, roots.Objects());
    LastTableIsFree(g, s, tables);
    NoPartTableFollowed(g, s, roots.globals, tables[|tables| - 1], ScanRoots(g, roots));
    MarkedWhenFollowed(g, roots);
  }

  /** On these heaps the guard of MarkedIffReachable is exactly right: marking is complete iff the
      table referred to is not that of a part with a superclass part, that is, iff the member belongs
      to the least derived part. */
  lemma CompleteIffLastPart(g: Graph, roots: Roots, e: Entry, parts: seq<Managed>, tables: seq<Managed>, k: nat,
                            lost: set<Managed>)
    requires Referred(g, roots, e, parts, tables, k, lost) && EndsThere(g, tables)
    requires var s := Reach(g, roots.Objects());
      SuperLinked(g, s) && NoOtherPartReference(g, s, roots.globals, tables[k])
    ensures ScanRoots(g, roots) == Reach(g, roots.Objects()) <==> !PartTable(g, Reach(g, roots.Objects()), tables[k])
    ensures ScanRoots(g, roots) == Reach(g, roots.Objects()) <==> k == |parts| - 1
  {
    if k + 1 < |parts| {
      PartsBelowAreLost(g, roots, e, parts, tables, k, lost, k + 1);
      PartTableBelow(g, Reach(g, roots.Objects()), parts, tables, k);
    } else {
      CompleteAtLastPart(g, roots, tables);
    }
  }

  // ----- one such heap -----

  /** A running script has called a method from "x.member = f()". There are the frame of the method
      and that of its caller, which has x in its locals; a class and one derived from it in the
      globals; x, of the derived class, with a method item in the table of each part; and, on the
      operand stack, the reference to the member. */
  function Content(o: seq<Managed>, i: nat): Body
    requires |o| == 16 && i < 16
  {
    if i == 0 then Table([Slot(1, Ref(o[1])), Slot(2, Ref(o[2]))])        // globals
    else if i == 1 then Part(false, o[3], Null)                           // the derived class
    else if i == 2 then Part(false, o[4], Null)                           // the base class
    else if i == 3 then Table([Slot(SUPER, Ref(o[2]))])
    else if i == 4 then Table([])
    else if i == 5 then Frame(Null, Ref(o[7]), null, null, o[6])          // the method
    else if i == 6 then Frame(Null, Ref(o[7]), o[8], null, null)          // its caller
    else if i == 7 then Part(false, null, Null)                           // "this" of both
    else if i == 8 then Table([Slot(3, Ref(o[9]))])                       // the caller's locals: x
    else if i == 9 then Part(false, o[11], Null)                          // x, its derived part
    else if i == 10 then Part(false, o[12], Ref(o[9]))                    // x, its base part
    else if i == 11 then Table([Slot(SUPER, Ref(o[10])), Slot(4, Ref(o[13]))])
    else if i == 12 then Table([Slot(5, Ref(o[14]))])
    else if i == 13 then Closure(null, Ref(o[9]))                         // a method of the derived class
    else if i == 14 then Closure(null, Ref(o[10]))                        // a method of the base class
    else TableReference(o[11])
  }

  /** Which objects each one points at. */
  function Next(i: nat): set<nat> {
    if i == 0 then {1, 2} else if i == 1 then {3} else if i == 2 then {4} else if i == 3 then {2}
    else if i == 4 then {} else if i == 5 then {7, 6} else if i == 6 then {7, 8} else if i == 7 then {}
    else if i == 8 then {9} else if i == 9 then {11} else if i == 10 then {12, 9} else if i == 11 then {10, 13}
    else if i == 12 then {14} else if i == 13 then {9} else if i == 14 then {10} else {11}
  }

  function Age(i: nat): nat {
    if i == 5 then 7 else i
  }

  ghost predicate Distinct(o: seq<Managed>, place: map<Managed, nat>) {
    |o| == 16 && Placed(o, place)
  }

  ghost function Example(o: seq<Managed>, place: map<Managed, nat>): Graph
    requires Distinct(o, place)
  {
    Graph(map x | x in place :: Content(o, place[x]), map x | x in place :: Age(place[x]))
  }

  ghost function Running(o: seq<Managed>): Roots
    requires |o| == 16
  {
    Roots([Ref(o[15])], Null, o[0], o[5])
  }

  lemma OneValue(v: Value)
    ensures AllRefs([v]) == Refs(v)
  {
    assert [v][0] == v;
  }

  lemma TwoValues(v: Value, w: Value)
    ensures AllRefs([v, w]) == Refs(v) + Refs(w)
  {
    assert [v, w][0] == v && [v, w][1] == w;
  }

  lemma ContentSuccessors(o: seq<Managed>, i: nat)
    requires |o| == 16 && i < 16
    ensures Successors(Content(o, i)) == set j | j in Next(i) :: o[j]
  {
    match Content(o, i) {
      case Table(slots) =>
        if |slots| == 2 {
          TwoValues(slots[0].value, slots[1].value);
          assert ValuesOf(slots) == [slots[0].value, slots[1].value];
        } else if |slots| == 1 {
          OneValue(slots[0].value);
          assert ValuesOf(slots) == [slots[0].value];
        }
      case _ =>
    }
  }

  lemma ExampleIsValid(o: seq<Managed>, place: map<Managed, nat>)
    requires Distinct(o, place)
    ensures Running(o).Valid(Example(o, place))
  {
    var g := Example(o, place);
    forall x | x in g.body ensures g.ValidAt(x) {
      ContentValid(o, place, place[x]);
    }
  }

  lemma ContentValid(o: seq<Managed>, place: map<Managed, nat>, i: nat)
    requires Distinct(o, place) && i < 16
    ensures Example(o, place).ValidAt(o[i])
  {
  }

  /** Only the "super" slot of the derived part and the base part itself lead to the base part. */
  lemma ExampleIsSealed(o: seq<Managed>, place: map<Managed, nat>)
    requires Distinct(o, place)
    ensures SealedBut(Example(o, place), place.Keys, {o[10], o[12], o[14]}, o[11], o[10])
  {
    var g := Example(o, place);
    forall x | x in g.body && x !in {o[10], o[12], o[14]} && x != o[11]
      ensures Successors(g.body[x]) !! {o[10], o[12], o[14]}
    {
      ContentSuccessors(o, place[x]);
    }
    ContentSuccessors(o, 11);
  }

  lemma ExampleEnters(o: seq<Managed>, place: map<Managed, nat>)
    requires Distinct(o, place) && Running(o).Valid(Example(o, place))
    ensures EntersThrough(Example(o, place), Running(o), Cell(0), o[11])
  {
    var g, roots := Example(o, place), Running(o);
    assert Earlier(roots, Cell(0)) == {};
    ReachIsLeast(g, {}, {});
  }

  lemma ExampleInstance(o: seq<Managed>, place: map<Managed, nat>)
    requires Distinct(o, place)
    ensures Instance(Example(o, place), [o[9], o[10]], [o[11], o[12]])
  {
    var g := Example(o, place);
    assert PartAt(g, [o[9], o[10]], [o[11], o[12]], 0) && PartAt(g, [o[9], o[10]], [o[11], o[12]], 1);
  }

  lemma ExampleIsReferred(o: seq<Managed>, place: map<Managed, nat>)
    requires Distinct(o, place)
    ensures Referred(Example(o, place), Running(o), Cell(0), [o[9], o[10]], [o[11], o[12]], 0, {o[10], o[12], o[14]})
  {
    ExampleIsValid(o, place);
    ExampleIsSealed(o, place);
    ExampleEnters(o, place);
    ExampleInstance(o, place);
    OneValue(Ref(o[15]));
  }

  /** The locals of the calling frame are followed. */
  lemma LocalIsMarked(g: Graph, roots: Roots, caller: Managed, locals: Managed, v: Value)
    requires roots.Valid(g) && roots.frame != null && roots.frame in g.body && caller in g.body && locals in g.body
    requires g.body[roots.frame].Frame? && g.body[roots.frame].previous == caller
    requires g.body[caller].Frame? && g.body[caller].locals == locals
    requires g.body[locals].Table? && ValuesOf(g.body[locals].slots) == [v] && g.Item(v) && Top(g, v) == v
    ensures Refs(v) <= ScanRoots(g, roots)
  {
    var s, m := Reach(g, roots.Objects()), ScanRoots(g, roots);
    ReachIsClosed(g, roots.Objects());
    ScanRootsFinishes(g, roots, s);
    assert Done(g, s, roots.globals, m, roots.frame);
    assert Done(g, s, roots.globals, m, caller);
    assert Done(g, s, roots.globals, m, locals);
    OneValue(v);
  }

  lemma DerivedPartIsMarked(o: seq<Managed>, place: map<Managed, nat>)
    requires Distinct(o, place) && Running(o).Valid(Example(o, place))
    ensures o[9] in ScanRoots(Example(o, place), Running(o))
  {
    var g, v := Example(o, place), Ref(o[9]);
    assert g.Item(v) && Top(g, v) == v;
    assert ValuesOf(g.body[o[8]].slots) == [v];
    LocalIsMarked(g, Running(o), o[6], o[8], v);
  }

  /** x is in use, and its derived part is marked; the base part can be reached and is not. */
  lemma BasePartIsLost(o: seq<Managed>, place: map<Managed, nat>)
    requires Distinct(o, place)
    ensures Running(o).Valid(Example(o, place))
    ensures o[9] in ScanRoots(Example(o, place), Running(o))
    ensures o[10] in Reach(Example(o, place), Running(o).Objects())
      && o[10] !in ScanRoots(Example(o, place), Running(o))
  {
    ExampleIsReferred(o, place);
    DerivedPartIsMarked(o, place);
    PartsBelowAreLost(Example(o, place), Running(o), Cell(0),
                      [o[9], o[10]], [o[11], o[12]], 0, {o[10], o[12], o[14]}, 1);
  }
}
