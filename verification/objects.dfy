/** Objects: one item for each class, linked both ways, and access to their members. */
module Objects {
  import opened Classes
  import opened Seqs

  const SUPER: string := "super"
  const OBJECT: string := "Object"

  /** A method is held as an item of its own, which knows the item it belongs to. */
  datatype Value = Null | Number(n: int) | Ref(item: Item) | Bound(code: nat, owner: Item)

  class Item {
    const typeName: string
    const isValue: bool           // an integer, string, ... : an item without members
    var variables: map<string, Value>
    var child: Item?

    constructor (name: string, value: bool)
      ensures typeName == name && isValue == value && variables == map[] && child == null
    {
      typeName, isValue, variables, child := name, value, map[], null;
    }
  }

  function InitialValue(m: Member, self: Item): Value {
    match m
    case Field(initial) => Number(initial)
    case Method(code) => Bound(code, self)
  }

  /** What the item of a class starts with: no superclass item yet, and the class's own members. */
  function Initial(c: Class, self: Item): map<string, Value> {
    (map x | x in c.members :: InitialValue(c.members[x], self))
    + (if c.name == OBJECT then map[] else map[SUPER := Null])
  }

  /** The item of one class of an object. */
  ghost predicate PartOf(parts: seq<Item>, i: nat, c: Class, values: set<string>)
    requires i < |parts|
    reads parts[i]
  {
    && parts[i].typeName == c.name && (parts[i].isValue <==> c.name in values)
    && parts[i].child == (if i == 0 || parts[i].isValue then null else parts[i - 1])
    && parts[i].variables ==
         if parts[i].isValue then map[]
         else if i == |parts| - 1 then Initial(c, parts[i])
         else Initial(c, parts[i])[SUPER := Ref(parts[i + 1])]
  }

  ghost predicate Linked(parts: seq<Item>, classes: seq<Class>, values: set<string>)
    reads parts
  {
    |parts| == |classes| && forall i {:trigger PartOf(parts, i, classes[i], values)} :: 0 <= i < |parts| ==>
      PartOf(parts, i, classes[i], values)
  }

  /** How many classes of a chain get an item: all, or as far as the first value class. */
  ghost predicate Built(chain: seq<Class>, n: nat, values: set<string>) {
    && 0 < n <= |chain| && (n == |chain| || chain[n - 1].name in values)
    && forall i :: 0 <= i < n - 1 ==> chain[i].name !in values
  }

  /** Only the last class of a chain has no superclass. */
  ghost predicate EndsThere(chain: seq<Class>, i: nat)
    requires i < |chain|
  {
    chain[i].super == "" <==> i == |chain| - 1
  }

  ghost predicate Follows(classes: map<string, Class>, chain: seq<Class>, i: nat)
    requires i < |chain| - 1
  {
    chain[i].super in classes && chain[i + 1] == classes[chain[i].super]
  }

  /** Adds the item of the next class. */
  method AddPart(ghost parts: seq<Item>, ghost place: map<Item, nat>, ghost chain: seq<Class>, previous: Item?,
                 c: Class, values: set<string>) returns (item: Item)
    requires Placed(parts, place) && |parts| < |chain| && c == chain[|parts|] && Linked(parts, chain[..|parts|], values)
    requires previous == (if parts == [] then null else parts[|parts| - 1]) && (previous != null ==> !previous.isValue)
    modifies (if previous == null then {} else {previous})`variables
    ensures fresh(item) && (item.isValue <==> c.name in values)
    ensures Placed(parts + [item], place[item := |parts|]) && Linked(parts + [item], chain[..|parts| + 1], values)
  {
    item := new Item(c.name, c.name in values);
    if previous != null {
      previous.variables := previous.variables[SUPER := Ref(item)];
    }
    if !item.isValue {
      item.child := previous;
      item.variables := Initial(c, item);
    }
    ghost var more, done := parts + [item], chain[..|parts| + 1];
    forall i | 0 <= i < |more| ensures PartOf(more, i, done[i], values) {
      if i < |parts| { assert old(PartOf(parts, i, chain[..|parts|][i], values)); }
    }
  }

  /** Builds an object: one item per class, from most derived to base, where "super" and child lead
      to the neighbours and are inverse to each other. */
  method New(registry: Registry, name: string, values: set<string>)
    returns (top: Item, ghost parts: seq<Item>, ghost place: map<Item, nat>)
    requires registry.Valid() && name in registry.classes
    ensures Placed(parts, place) && fresh(place.Keys) && parts != [] && top == parts[0]
    ensures var chain := Chain(registry.classes, registry.rank, name);
      Built(chain, |parts|, values) && Linked(parts, chain[..|parts|], values)
  {
    ghost var chain := Chain(registry.classes, registry.rank, name);
    forall i | 0 <= i < |chain| ensures EndsThere(chain, i) {
      LastHasNoSuper(registry.classes, registry.rank, name, i);
    }
    forall i | 0 <= i < |chain| - 1 ensures Follows(registry.classes, chain, i) {
      assert chain[i + 1].name in registry.classes && chain[i + 1].name == chain[i].super;
    }
    top, parts, place := BuildParts(registry.classes, name, chain, values);
  }

  method BuildParts(classes: map<string, Class>, name: string, ghost chain: seq<Class>, values: set<string>)
    returns (top: Item, ghost parts: seq<Item>, ghost place: map<Item, nat>)
    requires chain != [] && name in classes && chain[0] == classes[name]
    requires forall i :: 0 <= i < |chain| ==> EndsThere(chain, i)
    requires forall i :: 0 <= i < |chain| - 1 ==> Follows(classes, chain, i)
    ensures Placed(parts, place) && fresh(place.Keys) && parts != [] && top == parts[0]
    ensures Built(chain, |parts|, values) && Linked(parts, chain[..|parts|], values)
  {
    var current := classes[name];
    parts, place := [], map[];
    top := AddPart(parts, place, chain, null, current, values);
    parts, place := parts + [top], place[top := 0];
    var previous := top;
    assert EndsThere(chain, 0);
    while !previous.isValue && current.super != ""
      invariant fresh(place.Keys) && Placed(parts, place) && 0 < |parts| <= |chain| && EndsThere(chain, |parts| - 1)
      invariant Linked(parts, chain[..|parts|], values)
      invariant top == parts[0] && previous == parts[|parts| - 1] && current == chain[|parts| - 1]
      invariant previous.isValue <==> current.name in values
      invariant forall i :: 0 <= i < |parts| - 1 ==> chain[i].name !in values
      decreases |chain| - |parts|
    {
      assert Follows(classes, chain, |parts| - 1);
      current := classes[current.super];
      var item := AddPart(parts, place, chain, previous, current, values);
      parts, place := parts + [item], place[item := |parts|];
      previous := item;
    }
  }

  /** "super" and child are inverse to each other. */
  lemma LinksAreInverse(parts: seq<Item>, chain: seq<Class>, values: set<string>, i: nat)
    requires Built(chain, |parts|, values) && Linked(parts, chain[..|parts|], values) && i + 1 < |parts|
    ensures SUPER in parts[i].variables && parts[i].variables[SUPER] == Ref(parts[i + 1])
    ensures parts[i + 1].isValue || parts[i + 1].child == parts[i]
    ensures SuperChain(parts) && ChildChain(parts)
  {
    forall j | 0 <= j < |parts| ensures Next(parts, j) && ChildOf(parts, j) {
      assert PartOf(parts, j, chain[..|parts|][j], values);
    }
    assert PartOf(parts, i, chain[..|parts|][i], values) && PartOf(parts, i + 1, chain[..|parts|][i + 1], values);
  }

  /** A new object has the members of its classes, each in the part of its class: a field with its declared
      number, a method bound to that part. The last part has "super" too, unless it is of class Object. */
  lemma MembersStart(parts: seq<Item>, chain: seq<Class>, values: set<string>, i: nat, x: string)
    requires Built(chain, |parts|, values) && Linked(parts, chain[..|parts|], values) && i < |parts|
    requires chain[i].name !in values && x != SUPER
    ensures x in parts[i].variables <==> x in chain[i].members
    ensures x in chain[i].members ==>
      match chain[i].members[x]
      case Field(n) => parts[i].variables[x] == Number(n)
      case Method(code) => parts[i].variables[x] == Bound(code, parts[i])
    ensures i == |parts| - 1 ==>
      (SUPER in parts[i].variables <==> chain[i].name != "Object" || SUPER in chain[i].members)
  {
    assert PartOf(parts, i, chain[..|parts|][i], values);
  }

  // ----- members -----

  /** "super" leads from part i to the next, and from the last part nowhere. */
  ghost predicate Next(parts: seq<Item>, i: nat)
    requires i < |parts|
    reads parts[i]
  {
    var v := if SUPER in parts[i].variables then parts[i].variables[SUPER] else Null;
    if i < |parts| - 1 then !parts[i].isValue && v == Ref(parts[i + 1]) else parts[i].isValue || !v.Ref?
  }

  ghost predicate SuperChain(parts: seq<Item>)
    reads parts
  {
    forall i {:trigger Next(parts, i)} :: 0 <= i < |parts| ==> Next(parts, i)
  }

  ghost predicate ChildOf(parts: seq<Item>, i: nat)
    requires i < |parts|
    reads parts[i]
  {
    parts[i].child == (if i == 0 || parts[i].isValue then null else parts[i - 1])
  }

  /** child leads back from every part to the one before. */
  ghost predicate ChildChain(parts: seq<Item>)
    reads parts
  {
    forall i {:trigger ChildOf(parts, i)} :: 0 <= i < |parts| ==> ChildOf(parts, i)
  }

  /** The members of every part. */
  ghost function Tables(parts: seq<Item>): (r: seq<map<string, Value>>)
    reads parts
    ensures |r| == |parts| && forall i :: 0 <= i < |parts| ==>
      r[i] == if parts[i].isValue then map[] else parts[i].variables
  {
    seq(|parts|, i requires 0 <= i < |parts| reads parts => if parts[i].isValue then map[] else parts[i].variables)
  }

  /** The first part from i on that has the member. */
  ghost function Holder(tables: seq<map<string, Value>>, i: nat, x: string): (k: nat)
    requires i <= |tables|
    ensures i <= k <= |tables| && forall j :: i <= j < k ==> x !in tables[j]
    ensures k < |tables| ==> x in tables[k]
    decreases |tables| - i
  {
    if i == |tables| || x in tables[i] then i else Holder(tables, i + 1, x)
  }

  /** The first value of the member that is not null, from part i on. */
  ghost function Member(tables: seq<map<string, Value>>, i: nat, x: string): Value
    requires i <= |tables|
    decreases |tables| - i
  {
    if i == |tables| then Null
    else if x in tables[i] && tables[i][x] != Null then tables[i][x]
    else Member(tables, i + 1, x)
  }

  lemma {:induction false} MemberStays(before: seq<map<string, Value>>, after: seq<map<string, Value>>, j: nat,
                                       y: string)
    requires |before| == |after| && j <= |before|
    requires forall k :: 0 <= k < |before| ==>
      (y in before[k] <==> y in after[k]) && (y in before[k] ==> before[k][y] == after[k][y])
    ensures Member(before, j, y) == Member(after, j, y)
    decreases |before| - j
  {
    if j < |before| { MemberStays(before, after, j + 1, y); }
  }

  /** Parts without the member, and parts in which it is null, are passed by. */
  lemma {:induction false} ReadBack(tables: seq<map<string, Value>>, i: nat, k: nat, x: string)
    requires i <= k < |tables| && forall j :: i <= j < k ==> x !in tables[j] || tables[j][x] == Null
    requires x in tables[k] && tables[k][x] != Null
    ensures Member(tables, i, x) == tables[k][x]
    decreases k - i
  {
    if i < k { ReadBack(tables, i + 1, k, x); }
  }

  lemma {:induction false} NothingIsRead(tables: seq<map<string, Value>>, i: nat, x: string)
    requires i <= |tables| && forall j :: i <= j < |tables| ==> x !in tables[j] || tables[j][x] == Null
    ensures Member(tables, i, x) == Null
    decreases |tables| - i
  {
    if i < |tables| { NothingIsRead(tables, i + 1, x); }
  }

  function SuperOf(item: Item): (r: Item?)
    reads item
  {
    if !item.isValue && SUPER in item.variables && item.variables[SUPER].Ref? then item.variables[SUPER].item else null
  }

  /** Reads a member as seen from part i. */
  method FindVariable(owner: Item, x: string, ghost parts: seq<Item>, ghost i: nat) returns (v: Value)
    requires SuperChain(parts) && i < |parts| && owner == parts[i]
    ensures v == Member(Tables(parts), i, x)
  {
    var current: Item? := owner;
    ghost var j, tables := i, Tables(parts);
    v := Null;
    while current != null && v == Null
      invariant i <= j <= |parts| && (current == if j < |parts| then parts[j] else null)
      invariant v == Null ==> Member(tables, i, x) == Member(tables, j, x)
      invariant v != Null ==> v == Member(tables, i, x)
      decreases |parts| - j, v == Null
    {
      if !current.isValue && x in current.variables { v := current.variables[x]; }
      if v == Null {
        assert Next(parts, j);
        current := SuperOf(current);
        j := j + 1;
      }
    }
  }

  /** Finds the table that a member is in. */
  method FindVariableReference(owner: Item, x: string, ghost parts: seq<Item>, ghost i: nat) returns (target: Item?)
    requires SuperChain(parts) && i < |parts| && owner == parts[i]
    ensures target == var k := Holder(Tables(parts), i, x); if k < |parts| then parts[k] else null
  {
    target := owner;
    ghost var j, tables := i, Tables(parts);
    while target != null && (target.isValue || x !in target.variables)
      invariant i <= j <= |parts| && (target == if j < |parts| then parts[j] else null)
      invariant Holder(tables, i, x) == Holder(tables, j, x)
      decreases |parts| - j
    {
      assert Next(parts, j);
      target := SuperOf(target);
      j := j + 1;
    }
  }

  /** Assigns a member through a reference to the table it is in: that table changes, and nothing
      else. */
  method Store(owner: Item, x: string, v: Value, ghost parts: seq<Item>, ghost place: map<Item, nat>, ghost i: nat)
    returns (ok: bool)
    requires SuperChain(parts) && Placed(parts, place) && i < |parts| && owner == parts[i] && x != SUPER
    modifies parts
    ensures SuperChain(parts) && (old(ChildChain(parts)) ==> ChildChain(parts))
    ensures var tables := old(Tables(parts)); var k := Holder(tables, i, x);
      ok == (k < |parts|) && Tables(parts) == if ok then tables[k := tables[k][x := v]] else tables
  {
    var target := FindVariableReference(owner, x, parts, i);
    ok := target != null;
    if ok {
      Write(target, x, v, parts, place, Holder(Tables(parts), i, x));
      if old(ChildChain(parts)) {
        forall j | 0 <= j < |parts| ensures ChildOf(parts, j) {
          assert old(ChildOf(parts, j));
        }
      }
    }
  }

  method Write(target: Item, x: string, v: Value, ghost parts: seq<Item>, ghost place: map<Item, nat>, ghost k: nat)
    requires SuperChain(parts) && Placed(parts, place) && k < |parts| && target == parts[k] && !target.isValue
      && x != SUPER
    modifies target`variables
    ensures SuperChain(parts) && Tables(parts) == old(Tables(parts))[k := old(Tables(parts))[k][x := v]]
  {
    target.variables := target.variables[x := v];
    forall j | 0 <= j < |parts| ensures Next(parts, j) {
      assert place[parts[j]] == j && old(Next(parts, j));
    }
  }

  /** What was written is read back from the same part, and every other member reads as before from
      every part. */
  lemma StoredIsRead(tables: seq<map<string, Value>>, i: nat, x: string, v: Value, j: nat, y: string)
    requires i <= |tables| && j <= |tables| && Holder(tables, i, x) < |tables| && v != Null
    ensures var k := Holder(tables, i, x); var after := tables[k := tables[k][x := v]];
      Member(after, i, x) == v && (y != x ==> Member(after, j, y) == Member(tables, j, y))
  {
    var k := Holder(tables, i, x);
    var after := tables[k := tables[k][x := v]];
    ReadBack(after, i, k, x);
    if y != x { MemberStays(tables, after, j, y); }
  }
}
