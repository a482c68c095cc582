/** The blocks that managed objects live in, the allocators that take slots from them, and the
    sweep that gives slots back. */
module Slots {
  import opened Heap
  import opened Seqs

  const SIZE: nat := 512

  function Clear(n: nat): seq<bool> {
    seq(n, _ => false)
  }

  ghost function Unused(used: seq<bool>): set<nat> {
    set i: nat | i < |used| && !used[i]
  }

  /** A block of slots, with the bits "allocated" and "new since the last collection" of each.
      freeSpace counts the unallocated slots; searches start at nextIndex. */
  class Block {
    var freeSpace: nat
    var nextIndex: nat
    var previous: Block?
    var used: seq<bool>
    var created: seq<bool>
    const slots: seq<Managed>
    ghost const place: map<Managed, nat>

    constructor (blank: Body, below: Block?)
      ensures Structured() && Counted() && freeSpace == 512 && nextIndex == 0 && previous == below
      ensures used == created == Clear(SIZE)
      ensures fresh(place.Keys) && forall o :: o in place ==> !o.marked && o.body == blank
    {
      var objects, where := NewSlots(blank);
      slots, place := objects, where;
      freeSpace, nextIndex, previous := SIZE, 0, below;
      used, created := Clear(SIZE), Clear(SIZE);
      new;
      AllUnused(SIZE);
    }

    ghost predicate Structured()
      reads this`nextIndex, this`used, this`created
    {
      |slots| == |used| == |created| == SIZE && nextIndex <= SIZE && Placed(slots, place)
    }

    ghost predicate Counted()
      reads this`freeSpace, this`used
    {
      freeSpace == |Unused(used)|
    }

    /** The first unallocated slot from nextIndex on, then from the start. With no such slot the
        search comes back to nextIndex. */
    method Search() returns (k: nat)
      requires Structured()
      ensures k <= SIZE
      ensures nextIndex <= k ==> forall j :: nextIndex <= j < k ==> used[j]
      ensures k < nextIndex ==> forall j :: (0 <= j < k || nextIndex <= j < SIZE) ==> used[j]
      ensures k < SIZE && !used[k] <==> Unused(used) != {}
      ensures Unused(used) == {} ==> k == nextIndex
    {
      k := nextIndex;
      while k < SIZE && used[k]
        invariant nextIndex <= k <= SIZE && forall j :: nextIndex <= j < k ==> used[j]
      {
        k := k + 1;
      }
      if k == SIZE {
        k := 0;
        while k != nextIndex && used[k]
          invariant 0 <= k <= nextIndex && forall j :: 0 <= j < k ==> used[j]
        {
          k := k + 1;
        }
      }
      assert k < SIZE && !used[k] ==> k in Unused(used);
    }

    /** Allocates slot k. */
    method Take(k: nat, next: nat) returns (slot: Managed)
      requires Structured() && Counted() && k < SIZE && !used[k] && next <= SIZE
      modifies this`freeSpace, this`nextIndex, this`used, this`created
      ensures Structured() && Counted() && slot == slots[k] && nextIndex == next
      ensures used == old(used)[k := true] && created == old(created)[k := true]
    {
      assert Unused(used[k := true]) == Unused(used) - {k} && k in Unused(used);
      slot := slots[k];
      used, created := used[k := true], created[k := true];
      freeSpace, nextIndex := freeSpace - 1, next;
    }

    /** Allocates slot k, in use or not. */
    method Reuse(k: nat) returns (slot: Managed)
      requires Structured() && k < SIZE
      modifies this`used, this`created
      ensures Structured() && slot == slots[k]
    {
      slot := slots[k];
      used, created := used[k := true], created[k := true];
    }

    function StateAt(i: nat): State
      requires Structured() && i < SIZE
      reads this`nextIndex, this`used, this`created, slots[i]
    {
      State(used[i], created[i], slots[i].marked, slots[i].body)
    }

    /** Frees what is allocated and neither marked nor new, and clears the bits of the rest. */
    method Sweep()
      requires Structured()
      modifies this`freeSpace, this`used, this`created, place.Keys
      ensures Structured() && forall i :: 0 <= i < SIZE ==> StateAt(i) == AfterSweep(old(StateAt(i)))
      ensures old(Counted()) ==> Counted()
    {
      var i := 0;
      while i < SIZE
        invariant i <= SIZE && Structured()
        invariant forall j :: 0 <= j < i ==> StateAt(j) == AfterSweep(old(StateAt(j)))
        invariant forall j :: i <= j < SIZE ==> StateAt(j) == old(StateAt(j))
        invariant old(Counted()) ==> Counted()
      {
        SweepAt(i);
        i := i + 1;
      }
    }

    method SweepAt(i: nat)
      requires Structured() && i < SIZE
      modifies this`freeSpace, this`used, this`created, slots[i]
      ensures Structured() && StateAt(i) == AfterSweep(old(StateAt(i)))
      ensures forall j :: 0 <= j < SIZE && j != i ==> StateAt(j) == old(StateAt(j))
      ensures old(Counted()) ==> Counted()
    {
      var o := slots[i];
      if used[i] {
        if !o.marked && !created[i] {
          assert Unused(used[i := false]) == Unused(used) + {i};
          used, o.body := used[i := false], Emptied(o.body);
          freeSpace := freeSpace + 1;
        } else {
          created, o.marked := created[i := false], false;
        }
      }
    }
  }

  /** What freeing leaves of an object: items lose their type, tables and vectors their entries. */
  function Emptied(b: Body): Body {
    match b
    case Table(_) => Table([])
    case Vector(_, _) => Vector(true, [])
    case Frame(_, _, _, _, _) => b
    case _ => Plain
  }

  datatype State = State(used: bool, created: bool, marked: bool, body: Body)

  /** What a sweep makes of one slot. */
  function AfterSweep(s: State): State {
    if !s.used then s
    else if s.marked || s.created then State(true, false, false, s.body)
    else State(false, false, false, Emptied(s.body))
  }

  method NewSlots(blank: Body) returns (s: seq<Managed>, ghost place: map<Managed, nat>)
    ensures |s| == SIZE && Placed(s, place) && fresh(place.Keys)
    ensures forall o :: o in place ==> !o.marked && o.body == blank
  {
    s, place := [], map[];
    while |s| < SIZE
      invariant |s| <= SIZE && Placed(s, place) && fresh(place.Keys)
      invariant forall o :: o in place ==> !o.marked && o.body == blank
    {
      var o := new Managed(blank);
      s, place := s + [o], place[o := |s|];
    }
  }

  lemma {:induction false} AllUnused(n: nat)
    ensures |Unused(Clear(n))| == n
  {
    if n > 0 {
      AllUnused(n - 1);
      assert Unused(Clear(n)) == Unused(Clear(n - 1)) + {n - 1};
    }
  }

  /** The blocks of one kind of object: how many there are, how many come after each one in the
      list, and the block of each slot. */
  datatype View = View(count: nat, depth: map<Block, nat>, home: map<Managed, Block>) {

    ghost predicate Sound() {
      && (forall b :: b in depth ==> depth[b] < count)
      && (forall b, c {:trigger depth[b], depth[c]} :: b in depth && c in depth && depth[b] == depth[c] ==> b == c)
      && (forall b, o {:trigger o in b.place} :: b in depth && o in b.place ==> o in home && home[o] == b)
      && (forall o :: o in home ==> home[o] in depth && o in home[o].place)
    }

    /** The blocks are linked by previous, from top on. */
    ghost predicate Linked(top: Block?)
      reads depth.Keys`previous
    {
      && (if top == null then count == 0 else top in depth && depth[top] + 1 == count)
      && forall b {:trigger b.previous} :: b in depth ==>
           if b.previous == null then depth[b] == 0
           else b.previous in depth && depth[b.previous] + 1 == depth[b]
    }

    ghost predicate Sized()
      reads depth.Keys`nextIndex, depth.Keys`used, depth.Keys`created
    {
      forall b :: b in depth ==> b.Structured()
    }

    /** Every block counts its unallocated slots. */
    ghost predicate Counted()
      reads depth.Keys`freeSpace, depth.Keys`used
    {
      forall b :: b in depth ==> b.Counted()
    }

    /** Some block has an unallocated slot. */
    ghost predicate HasRoom()
      reads depth.Keys`used
    {
      exists b :: b in depth && Unused(b.used) != {}
    }

    ghost function Added(b: Block): View {
      View(count + 1, depth[b := count], map o | o in home.Keys + b.place.Keys :: if o in b.place then b else home[o])
    }

    /** c in front of the others, which stay in order. */
    ghost function Fronted(c: Block): View
      requires c in depth && count > 0
    {
      View(count, map b | b in depth :: FrontDepth(depth[b], depth[c]), home)
    }

    ghost function FrontDepth(d: nat, front: nat): nat
      requires count > 0
    {
      if d == front then count - 1 else if d > front then d - 1 else d
    }
  }

  /** Once p skips c, and c comes before the top. */
  lemma FrontedLinked(v: View, c: Block, p: Block, top: Block)
    requires v.Sound() && c in v.depth && p in v.depth && top in v.depth && c != top
    requires v.depth[top] == v.count - 1 && v.depth[p] == v.depth[c] + 1 && c.previous == top
    requires forall b :: b in v.depth && b != c ==>
      if b.previous == null then v.depth[b] == 0 || (b == p && v.depth[c] == 0)
      else b.previous in v.depth && v.depth[b.previous] + (if b == p then 2 else 1) == v.depth[b]
    ensures v.Fronted(c).Linked(c)
  {
    assert forall b :: b in v.depth && v.depth[b] == v.depth[c] + 1 ==> b == p;
  }

  lemma AddedSound(v: View, b: Block)
    requires v.Sound() && b !in v.depth && v.home.Keys !! b.place.Keys
    ensures v.Added(b).Sound()
  {
  }

  lemma FrontedSound(v: View, c: Block)
    requires v.Sound() && c in v.depth && v.count > 0
    ensures v.Fronted(c).Sound() && v.Fronted(c).depth.Keys == v.depth.Keys
  {
    var w := v.Fronted(c);
    forall x, y | x in w.depth && y in w.depth && w.depth[x] == w.depth[y] ensures x == y {
      assert x in v.depth && y in v.depth && v.depth[x] == v.depth[y];
    }
  }

  lemma FrontStays(v: View, c: Block)
    requires v.Sound() && c in v.depth && v.depth[c] == v.count - 1
    ensures v.Fronted(c) == v
  {
    assert v.Fronted(c).depth == v.depth;
  }

  /** The blocks for one kind of object, most recent first. */
  class Pool {
    var top: Block?
    ghost var view: View

    constructor ()
      ensures Valid() && view == View(0, map[], map[])
    {
      top, view := null, View(0, map[], map[]);
    }

    ghost predicate Structured()
      reads this, view.depth.Keys
    {
      view.Sound() && view.Linked(top) && view.Sized()
    }

    ghost predicate Valid()
      reads this, view.depth.Keys
    {
      Structured() && view.Counted()
    }

    /** The first block with an unallocated slot, and the one before it. */
    method FindRoom() returns (current: Block?, previous: Block?)
      requires Valid()
      ensures current != null ==> current in view.depth && current.freeSpace > 0
      ensures forall b :: b in view.depth && (current == null || view.depth[b] > view.depth[current]) ==>
        b.freeSpace == 0
      ensures if previous == null then current == top else previous in view.depth && previous.previous == current
    {
      current, previous := top, null;
      while current != null && current.freeSpace == 0
        invariant current != null ==> current in view.depth
        invariant if previous == null then current == top else previous in view.depth && previous.previous == current
        invariant forall b :: b in view.depth && (current == null || view.depth[b] > view.depth[current]) ==>
          b.freeSpace == 0
        decreases if current == null then 0 else view.depth[current] + 1
      {
        previous := current;
        current := current.previous;
      }
    }

    method AddBlock(blank: Body)
      requires Structured()
      modifies this
      ensures Structured() && (old(view.Counted()) ==> view.Counted()) && fresh(top) && fresh(top.place.Keys)
        && view == old(view).Added(top)
      ensures top.freeSpace == SIZE && top.nextIndex == 0 && top.used == top.created == Clear(SIZE)
    {
      var b := new Block(blank, top);
      AddedSound(view, b);
      top, view := b, view.Added(b);
    }

    method MoveToFront(current: Block, previous: Block)
      requires view.Sound() && view.Linked(top)
      requires current in view.depth && previous in view.depth && previous.previous == current
      modifies this, previous`previous, current`previous
      ensures view.Sound() && view.Linked(top) && view == old(view).Fronted(current) && top == current
    {
      ghost var v := view;
      view := v.Fronted(current);
      Relink(v, current, previous);
      FrontedSound(v, current);
    }

    method Relink(ghost v: View, current: Block, previous: Block)
      requires v.Sound() && v.Linked(top)
      requires current in v.depth && previous in v.depth && previous.previous == current
      modifies this`top, previous`previous, current`previous
      ensures v.Fronted(current).Linked(top) && top == current
    {
      ghost var t := top;
      previous.previous := current.previous;
      current.previous := top;
      top := current;
      FrontedLinked(v, current, previous, t);
    }

    /** The block to allocate from, moved to the front; a new one when all are full. */
    method MakeRoomInFront(blank: Body) returns (b: Block)
      requires Valid()
      modifies this, view.depth.Keys`previous
      ensures Valid() && b == top && b in view.depth && b.freeSpace > 0
      ensures if old(view.HasRoom()) then b in old(view.depth) && view == old(view).Fronted(b)
              else
                && fresh(b) && fresh(b.place.Keys) && b.used == b.created == Clear(SIZE)
                && view == old(view).Added(b)
    {
      var room, previous := FindRoom();
      RoomByCount(view, room);
      if room == null {
        AddBlock(blank);
      } else {
        BringToFront(room, previous);
      }
      b := top;
    }

    /** A block with room comes to the front, if it is not there. */
    method BringToFront(room: Block, previous: Block?)
      requires Valid() && room in view.depth
      requires if previous == null then room == top else previous in view.depth && previous.previous == room
      modifies this, view.depth.Keys`previous
      ensures Valid() && top == room && view == old(view).Fronted(room)
    {
      if previous != null {
        MoveToFront(room, previous);
        SameBlocks(old(view), room);
      } else {
        FrontStays(view, room);
      }
    }

    /** The allocator of items and of tables: the block allocated from moves to the front of the
        list, and a new block is added when all are full. */
    method AllocateInFront(blank: Body) returns (slot: Managed, ghost b: Block, ghost k: nat)
      requires Valid()
      modifies this, view.depth.Keys
      ensures Valid() && b in view.depth && k < SIZE && slot == b.slots[k] && b.nextIndex == k + 1
      ensures if old(view.HasRoom())
        then && b in old(view.depth) && view == old(view).Fronted(b) && !old(b.used)[k]
             && b.used == old(b.used)[k := true] && b.created == old(b.created)[k := true]
        else && fresh(b) && fresh(b.place.Keys) && view == old(view).Added(b)
             && b.used == b.created == Clear(SIZE)[k := true]
      ensures forall c :: c in old(view.depth) && c != b ==> c.used == old(c.used) && c.created == old(c.created)
    {
      var current := MakeRoomInFront(blank);
      slot, k := TakeNext(current, 1);
      b := current;
    }

    method MakeRoomInPlace(blank: Body) returns (b: Block)
      requires Valid()
      modifies this
      ensures Valid() && b in view.depth && b.freeSpace > 0
      ensures if old(view.HasRoom()) then b in old(view.depth) && view == old(view)
              else
                && fresh(b) && fresh(b.place.Keys) && b.used == b.created == Clear(SIZE)
                && view == old(view).Added(b)
      ensures forall c :: c in old(view.depth) ==>
        c in view.depth && c.used == old(c.used) && c.created == old(c.created)
    {
      var room, _ := FindRoom();
      RoomByCount(view, room);
      if room == null {
        AddBlock(blank);
        room := top;
      }
      b := room;
    }

    /** The allocator of frames: the same search, but the list stays as it is. */
    method AllocateInPlace(blank: Body) returns (slot: Managed, ghost b: Block, ghost k: nat)
      requires Valid()
      modifies this, view.depth.Keys
      ensures Valid() && b in view.depth && k < SIZE && slot == b.slots[k] && b.nextIndex == k
      ensures if old(view.HasRoom())
        then && b in old(view.depth) && view == old(view) && !old(b.used)[k]
             && b.used == old(b.used)[k := true] && b.created == old(b.created)[k := true]
        else && fresh(b) && fresh(b.place.Keys) && view == old(view).Added(b)
             && b.used == b.created == Clear(SIZE)[k := true]
      ensures forall c :: c in old(view.depth) && c != b ==> c.used == old(c.used) && c.created == old(c.created)
    {
      var current := MakeRoomInPlace(blank);
      slot, k := TakeNext(current, 0);
      b := current;
    }

    /** The allocator of vectors keeps no count and never moves nextIndex: it only ever looks in the
        first block, and when that is full it hands out a slot that is in use. */
    method AllocateVector(blank: Body) returns (slot: Managed, ghost k: nat)
      requires Structured() && (top != null ==> top.freeSpace >= SIZE && top.nextIndex == 0)
      modifies this, view.depth.Keys
      ensures Structured() && top != null && top.freeSpace >= SIZE && top.nextIndex == 0
      ensures k < SIZE && slot == top.slots[k]
      ensures old(top) != null ==> top == old(top) && view == old(view)
      ensures old(top) != null ==> (old(top.used)[k] <==> Unused(old(top.used)) == {})
      ensures old(top) != null && Unused(old(top.used)) == {} ==> k == 0
    {
      if top == null { AddBlock(blank); }
      slot, k := TakeVectorSlot();
    }

    method TakeVectorSlot() returns (slot: Managed, ghost k: nat)
      requires Structured() && top != null && top.nextIndex == 0
      modifies top`used, top`created
      ensures Structured() && k < SIZE && slot == top.slots[k]
      ensures old(top.used)[k] <==> Unused(old(top.used)) == {}
      ensures Unused(old(top.used)) == {} ==> k == 0
    {
      var i := top.Search();
      slot := top.Reuse(i);
      k := i;
    }

    /** Allocates the next slot of a block with room. */
    method TakeNext(b: Block, step: nat) returns (slot: Managed, ghost k: nat)
      requires Valid() && b in view.depth && b.freeSpace > 0 && step <= 1
      modifies b`freeSpace, b`nextIndex, b`used, b`created
      ensures Valid() && k < SIZE && slot == b.slots[k] && !old(b.used)[k]
      ensures b.used == old(b.used)[k := true] && b.created == old(b.created)[k := true]
      ensures b.nextIndex == k + step
      ensures forall c :: c in view.depth && c != b ==> c.used == old(c.used) && c.created == old(c.created)
    {
      var i := b.Search();
      slot := b.Take(i, i + step);
      k := i;
    }

    /** Every slot of the blocks from n on is as before, and every slot above has been swept. */
    twostate predicate SweptTo(n: nat)
      requires view == old(view) && view.Sound() && old(view.Sized()) && view.Sized()
      reads this, view.depth.Keys, view.home.Keys
    {
      forall b, i :: b in view.depth && 0 <= i < SIZE ==>
        b.StateAt(i) == if view.depth[b] < n then old(b.StateAt(i)) else AfterSweep(old(b.StateAt(i)))
    }

    /** The state of every slot. */
    ghost function States(): map<Managed, State>
      reads this, view.depth.Keys, view.home.Keys
    {
      if view.Sound() && view.Sized() then
        map o | o in view.home :: view.home[o].StateAt(view.home[o].place[o])
      else map[]
    }

    /** Once all blocks have been swept, so have all slots. */
    twostate lemma AllBlocksSwept()
      requires view == old(view) && view.Sound() && old(view.Sized()) && view.Sized() && SweptTo(0)
      ensures States() == AllSwept(old(States()))
    {
      forall o | o in view.home ensures States()[o] == AfterSweep(old(States())[o]) {
        assert view.home[o] in view.depth && view.home[o].place[o] < SIZE;
      }
    }

    /** Sweeps every slot of every block. */
    method Sweep()
      requires Structured()
      modifies view.depth.Keys`freeSpace, view.depth.Keys`used, view.depth.Keys`created, view.home.Keys
      ensures Structured() && States() == AllSwept(old(States()))
      ensures old(view.Counted()) ==> view.Counted()
    {
      var b := top;
      while b != null
        invariant b != null ==> b in view.depth
        invariant view.Linked(top) && view.Sized() && SweptTo(if b == null then 0 else view.depth[b] + 1)
        invariant old(view.Counted()) ==> view.Counted()
        decreases if b == null then 0 else view.depth[b] + 1
      {
        SweepBlock(b);
        b := b.previous;
      }
      AllBlocksSwept();
    }

    method SweepBlock(b: Block)
      requires view.Sound() && view.Sized() && b in view.depth
      modifies b`freeSpace, b`used, b`created, b.place.Keys
      ensures view.Sized() && (old(view.Counted()) ==> view.Counted())
      ensures forall i :: 0 <= i < SIZE ==> b.StateAt(i) == AfterSweep(old(b.StateAt(i)))
      ensures forall c, i :: c in view.depth && c != b && 0 <= i < SIZE ==> c.StateAt(i) == old(c.StateAt(i))
    {
      b.Sweep();
    }
  }

  ghost function AllSwept(s: map<Managed, State>): map<Managed, State> {
    map o | o in s :: AfterSweep(s[o])
  }

  lemma SameBlocks(v: View, c: Block)
    requires v.Sound() && c in v.depth && v.Sized() && v.Counted()
    ensures v.Fronted(c).Sized() && v.Fronted(c).Counted()
  {
    FrontedSound(v, c);
  }

  lemma RoomByCount(v: View, room: Block?)
    requires v.Sized() && v.Counted()
    requires if room == null then forall b :: b in v.depth ==> b.freeSpace == 0
      else room in v.depth && room.freeSpace > 0
    ensures v.HasRoom() <==> room != null
  {
  }
}
