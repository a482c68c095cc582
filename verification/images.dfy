/** Objects as they are built are what the collector relies on: in the heap, every part with a child
    is the "super" entry of the child's table. */
module Images {
  import H = Heap
  import O = Objects
  import Exactness

  /** How objects lie in the heap: the item of each part, the table of its members, and the keys that
      stand for names. */
  datatype Image = Image(items: map<O.Item, H.Managed>, tables: map<O.Item, H.Managed>, key: string -> nat)

  ghost predicate ShowsValue(g: H.Graph, m: Image, v: O.Value, w: H.Value) {
    match v
    case Null => w == H.Null
    case Number(n) => w == H.Direct(n) || (w.Ref? && w.item in g.body && g.body[w.item] == H.Plain)
    case Ref(item) => item in m.items && w == H.Ref(m.items[item])
    case Bound(_, owner) =>
      && owner in m.items && w.Ref? && w.item in g.body && g.body[w.item] == H.Closure(null, H.Ref(m.items[owner]))
  }

  ghost predicate ShowsEntry(g: H.Graph, m: Image, slots: seq<H.Slot>, x: string, v: O.Value) {
    exists i :: 0 <= i < |slots| && slots[i].key == m.key(x) && ShowsValue(g, m, v, slots[i].value)
  }

  /** One part: an item with a table that holds the members, or an item without members. */
  ghost predicate ShowsPart(g: H.Graph, m: Image, o: O.Item)
    reads o
  {
    && o in m.items && m.items[o] in g.body
    && if o.isValue then g.body[m.items[o]].IsItem() && !g.body[m.items[o]].Part?
       else
         && o in m.tables && m.tables[o] in g.body && g.body[m.tables[o]].Table?
         && (o.child != null ==> o.child in m.items)
         && g.body[m.items[o]] ==
           H.Part(false, m.tables[o], if o.child == null then H.Null else H.Ref(m.items[o.child]))
         && forall x :: x in o.variables ==> ShowsEntry(g, m, g.body[m.tables[o]].slots, x, o.variables[x])
  }

  /** The heap shows these objects, and what else is a part in s has no child: the items of classes
      and modules. */
  ghost predicate ShowsAll(g: H.Graph, m: Image, objects: seq<seq<O.Item>>, s: set<H.Managed>)
    reads set a, i | 0 <= a < |objects| && 0 <= i < |objects[a]| :: objects[a][i]
  {
    && m.key(O.SUPER) == H.SUPER
    && (forall a, i {:trigger objects[a][i]} :: 0 <= a < |objects| && 0 <= i < |objects[a]| ==>
          ShowsPart(g, m, objects[a][i]))
    && forall o :: o in s && o in g.body && g.body[o].Part? && g.body[o].child.Ref? ==> IsImage(m, objects, o)
  }

  ghost predicate IsImage(m: Image, objects: seq<seq<O.Item>>, o: H.Managed) {
    exists a, i {:trigger objects[a][i]} ::
      0 <= a < |objects| && 0 <= i < |objects[a]| && objects[a][i] in m.items && m.items[objects[a][i]] == o
  }

  lemma ImageHoldsSuper(g: H.Graph, m: Image, parts: seq<O.Item>, i: nat)
    requires O.SuperChain(parts) && O.ChildChain(parts) && i < |parts| && m.key(O.SUPER) == H.SUPER
    requires forall j :: 0 <= j < |parts| ==> ShowsPart(g, m, parts[j])
    requires parts[i] in m.items && m.items[parts[i]] in g.body
    requires g.body[m.items[parts[i]]].Part? && g.body[m.items[parts[i]]].child.Ref?
    ensures Exactness.HoldsSuper(g, g.body[m.items[parts[i]]].child.item, m.items[parts[i]])
  {
    assert O.ChildOf(parts, i) && ShowsPart(g, m, parts[i]);
    assert i > 0 && O.Next(parts, i - 1) && ShowsPart(g, m, parts[i - 1]);
    var d := parts[i - 1];
    assert ShowsEntry(g, m, g.body[m.tables[d]].slots, O.SUPER, d.variables[O.SUPER]);
  }

  /** Whatever objects there are, linked as O.New links them and as assignments leave them, the heap
      meets the condition on which mark exactness rests. */
  lemma ImagesAreSuperLinked(g: H.Graph, m: Image, objects: seq<seq<O.Item>>, s: set<H.Managed>)
    requires ShowsAll(g, m, objects, s)
    requires forall a :: 0 <= a < |objects| ==> O.SuperChain(objects[a]) && O.ChildChain(objects[a])
    ensures Exactness.SuperLinked(g, s)
  {
    forall o | o in s && o in g.body && g.body[o].Part? && !g.body[o].isModule && g.body[o].child.Ref?
      ensures Exactness.HoldsSuper(g, g.body[o].child.item, o)
    {
      var a, i :| 0 <= a < |objects| && 0 <= i < |objects[a]| && objects[a][i] in m.items
        && m.items[objects[a][i]] == o;
      ImageHoldsSuper(g, m, objects[a], i);
    }
  }
}
