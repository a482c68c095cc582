/** Symbol names: each name is stored once, in a memory pool that never moves or reuses it. */
module Symbols {
  import opened Hashtable

  // ----- the order of strings -----

  /** strcmp, by sign. */
  function Strcmp(a: string, b: string): int {
    if a == [] then (if b == [] then 0 else -1)
    else if b == [] then 1
    else if a[0] < b[0] then -1
    else if a[0] > b[0] then 1
    else Strcmp(a[1..], b[1..])
  }

  /** Strings are ordered by the first character in which they differ; a prefix comes first. */
  lemma {:induction false} FirstDifference(a: string, b: string, i: nat)
    requires i <= |a| && i <= |b| && a[..i] == b[..i]
    ensures i < |a| && i < |b| && a[i] < b[i] ==> Strcmp(a, b) < 0
    ensures i < |a| && i < |b| && a[i] > b[i] ==> Strcmp(a, b) > 0
    ensures i == |a| < |b| ==> Strcmp(a, b) < 0
    ensures i == |b| < |a| ==> Strcmp(a, b) > 0
  {
    if i > 0 {
      assert a[..i][0] == b[..i][0] && a[..i][1..] == a[1..][..i - 1] && b[..i][1..] == b[1..][..i - 1];
      FirstDifference(a[1..], b[1..], i - 1);
    }
  }

  lemma {:induction false} SameString(a: string, b: string)
    ensures Strcmp(a, b) == 0 <==> a == b
  {
    if a != [] && b != [] && a[0] == b[0] {
      SameString(a[1..], b[1..]);
      assert a == [a[0]] + a[1..] && b == [b[0]] + b[1..];
    }
  }

  lemma {:induction false} Opposite(a: string, b: string)
    ensures Strcmp(a, b) < 0 <==> Strcmp(b, a) > 0
  {
    if a != [] && b != [] && a[0] == b[0] { Opposite(a[1..], b[1..]); }
  }

  lemma {:induction false} Transitive(a: string, b: string, c: string)
    requires Strcmp(a, b) < 0 && Strcmp(b, c) < 0
    ensures Strcmp(a, c) < 0
  {
    if a != [] && b != [] && c != [] && a[0] == b[0] && b[0] == c[0] { Transitive(a[1..], b[1..], c[1..]); }
  }

  /** strcmp is a strict total order, as the table needs. */
  lemma StringsAreOrdered()
    ensures Total(Strcmp)
  {
    forall a, b ensures Strcmp(a, b) == 0 <==> a == b { SameString(a, b); }
    forall a, b ensures Strcmp(a, b) < 0 <==> Strcmp(b, a) > 0 { Opposite(a, b); }
    forall a, b, c | Strcmp(a, b) < 0 && Strcmp(b, c) < 0 ensures Strcmp(a, c) < 0 { Transitive(a, b, c); }
  }

  // ----- the memory pool -----

  const BLOCK: nat := 2048
  const NUL: char := '\0'

  datatype Pointer = Pointer(memory: array<char>, offset: nat)

  /** Memory from next on is free; next stays a multiple of 4. */
  class MemoryBlock {
    const memory: array<char>
    var next: nat
    var previous: MemoryBlock?

    constructor (below: MemoryBlock?)
      ensures Valid() && fresh(memory) && memory.Length == 2048 && next == 0 && previous == below
    {
      memory, next, previous := new char[BLOCK](_ => NUL), 0, below;
    }

    ghost predicate Valid()
      reads this
    {
      memory.Length == BLOCK && next <= BLOCK && next % 4 == 0
    }

    /** Copies bytes to the free memory. */
    method Take(bytes: string) returns (p: Pointer)
      requires Valid() && 0 < |bytes| && next + |bytes| <= BLOCK
      modifies this`next, memory
      ensures Valid() && p == Pointer(memory, old(next)) && next >= old(next) + |bytes|
      ensures forall i :: 0 <= i < old(next) ==> memory[i] == old(memory[i])
      ensures forall i :: 0 <= i < |bytes| ==> memory[p.offset + i] == bytes[i]
    {
      var start := next;
      forall i | 0 <= i < |bytes| { memory[start + i] := bytes[i]; }
      next := next + (|bytes| + 3) / 4 * 4;
      p := Pointer(memory, start);
    }
  }

  /** The pool allocates from its top block. When that lacks room it is dropped from the list, so
      there is never a block below the top. Ghost state: the bytes behind each pointer given out, and
      the memories they are in. */
  class MemoryPool {
    var top: MemoryBlock?
    ghost var given: map<Pointer, string>
    ghost var memories: set<array<char>>

    constructor ()
      ensures Valid() && given == map[] && memories == {}
    {
      top, given, memories := null, map[], {};
    }

    /** The bytes are still there, and their memory is not free. */
    ghost predicate Holds(p: Pointer)
      requires p in given
      reads this, top, memories
    {
      && p.memory in memories && p.offset % 4 == 0 && 0 < |given[p]| && p.offset + |given[p]| <= p.memory.Length
      && (forall i :: 0 <= i < |given[p]| ==> p.memory[p.offset + i] == given[p][i])
      && (top != null && p.memory == top.memory ==> p.offset + |given[p]| <= top.next)
    }

    /** p shares no byte with the pointers of before. */
    ghost predicate Apart(p: Pointer, before: map<Pointer, string>) {
      forall q :: q in before && q.memory == p.memory ==> q.offset + |before[q]| <= p.offset
    }

    ghost predicate Valid()
      reads this, top, memories
    {
      && (top != null ==> top.Valid() && top.previous == null && top.memory in memories)
      && (forall p :: p in given ==> Holds(p))
    }

    /** A block with room for size bytes is on top. */
    method MakeRoom(size: nat)
      requires Valid() && 0 < size <= BLOCK
      modifies this`top, this`memories
      ensures Valid() && top != null && top.next + size <= BLOCK && given == old(given)
      ensures
        || (top == old(top) && memories == old(memories))
        || (fresh(top) && fresh(top.memory) && memories == old(memories) + {top.memory})
    {
      while top != null && top.next + size > BLOCK
        invariant Valid() && (top == old(top) || top == null)
        modifies this`top
        decreases if top == null then 0 else 1
      {
        top := top.previous;
      }
      if top == null {
        top := new MemoryBlock(top);
        memories := memories + {top.memory};
      }
    }

    /** A pointer to a copy of the bytes, in memory given to no other; nothing for no bytes or for
        more than a block holds. */
    method Allocate(bytes: string) returns (p: seq<Pointer>)
      requires Valid()
      modifies this, top, if top == null then {} else {top.memory}
      ensures Valid() && (top == old(top) || fresh(top))
      ensures top != null && top != old(top) ==> fresh(top.memory)
      ensures p == [] <==> bytes == [] || |bytes| > BLOCK
      ensures p == [] ==> given == old(given)
      ensures p != [] ==>
        |p| == 1 && p[0] !in old(given) && given == old(given)[p[0] := bytes] && Apart(p[0], old(given))
      ensures old(memories) <= memories && fresh(memories - old(memories))
    {
      if bytes == [] || |bytes| > BLOCK { return []; }
      MakeRoom(|bytes|);
      var q := TakeFromTop(bytes);
      p := [q];
    }

    method TakeFromTop(bytes: string) returns (p: Pointer)
      requires Valid() && top != null && 0 < |bytes| && top.next + |bytes| <= BLOCK
      modifies this`given, top`next, top.memory
      ensures Valid() && p !in old(given) && given == old(given)[p := bytes] && Apart(p, old(given))
    {
      p := top.Take(bytes);
      given := given[p := bytes];
    }
  }

  // ----- interning -----

  /** The symbol table: from names to pointers at copies of them. */
  class SymbolTable {
    const table: Table<string, Pointer>
    const pool: MemoryPool
    const null_: Pointer

    constructor (nowhere: Pointer)
      ensures Valid() && Known() == map[]
    {
      StringsAreOrdered();
      table := new Table<string, Pointer>(Strcmp, 256, 1, 64, Cell([], [nowhere]));
      pool := new MemoryPool();
      null_ := nowhere;
    }

    ghost function Known(): map<string, Pointer>
      requires table.Valid()
      reads this, table, table.elems
    {
      map n | n in table.Contents() :: table.Contents()[n][0]
    }

    ghost predicate Valid()
      reads this, table, table.elems, pool, pool.top, pool.memories
    {
      && table.Valid() && pool.Valid()
      && forall n :: n in Known() ==> Known()[n] in pool.given && pool.given[Known()[n]] == n + [NUL]
    }

    /** The pointer of a name: the same one every time, and a different one for every other name. */
    method GetSymbolNamePtr(name: string) returns (p: Pointer)
      requires Valid() && |name| < BLOCK
      modifies table, table.elems, pool, pool.top, if pool.top == null then {} else {pool.top.memory}
      ensures Valid() && Known() == old(Known())[name := p]
      ensures name in old(Known()) ==> p == old(Known())[name] && pool.given == old(pool.given)
      ensures (table.elems == old(table.elems) || fresh(table.elems)) && (pool.top == old(pool.top) || fresh(pool.top))
      ensures pool.top != null && pool.top != old(pool.top) ==> fresh(pool.top.memory)
      ensures name !in old(Known()) ==> p !in old(pool.given) && pool.given == old(pool.given)[p := name + [NUL]]
    {
      var handle, q := table.Find(name, null_);
      p := q;
      if handle == 0 {
        var r := pool.Allocate(name + [NUL]);
        p := r[0];
        AddName(name, p);
      }
    }

    /** Enters a new name, whose bytes have been copied to p. */
    method AddName(name: string, p: Pointer)
      requires Valid() && name !in Known() && p in pool.given && pool.given[p] == name + [NUL]
      modifies table, table.elems
      ensures Valid() && Known() == old(Known())[name := p] && (table.elems == old(table.elems) || fresh(table.elems))
    {
      ghost var was := Known();
      var h := table.Insert(name, p);
      assert Known() == was[name := p];
      forall n | n in Known() ensures Known()[n] in pool.given && pool.given[Known()[n]] == n + [NUL] {
        if n != name { assert n in was && Known()[n] == was[n]; }
      }
    }

    /** Names and pointers correspond one to one. */
    lemma OnePointerPerName(n: string, m: string)
      requires Valid() && n in Known() && m in Known()
      ensures Known()[n] == Known()[m] <==> n == m
    {
      assert pool.given[Known()[n]] == n + [NUL] && pool.given[Known()[m]] == m + [NUL];
      assert (n + [NUL])[..|n|] == n && (m + [NUL])[..|m|] == m;
    }

    /** Any number of calls: equal names get equal pointers, different names different ones, and at
        the end the bytes of every name are still behind its pointer. */
    method GetAll(names: seq<string>) returns (ps: seq<Pointer>)
      requires Valid() && forall i :: 0 <= i < |names| ==> |names[i]| < BLOCK
      modifies table, table.elems, pool, pool.top, if pool.top == null then {} else {pool.top.memory}
      ensures |ps| == |names|
      ensures forall i, j :: 0 <= i < |names| && 0 <= j < |names| ==> (ps[i] == ps[j] <==> names[i] == names[j])
      ensures Valid() && forall i :: 0 <= i < |names| ==> ps[i] in pool.given && pool.given[ps[i]] == names[i] + [NUL]
    {
      ps := GetEach(names);
      OnePointerEach(names, ps);
    }

    /** The names asked for so far have these pointers. */
    static ghost predicate Answers(known: map<string, Pointer>, names: seq<string>, ps: seq<Pointer>) {
      |ps| <= |names| && forall i :: 0 <= i < |ps| ==> names[i] in known && known[names[i]] == ps[i]
    }

    static lemma OneMoreAnswer(known: map<string, Pointer>, names: seq<string>, ps: seq<Pointer>, p: Pointer)
      requires Answers(known, names, ps) && |ps| < |names|
      requires names[|ps|] in known ==> p == known[names[|ps|]]
      ensures Answers(known[names[|ps|] := p], names, ps + [p])
    {
    }

    method GetEach(names: seq<string>) returns (ps: seq<Pointer>)
      requires Valid() && forall i :: 0 <= i < |names| ==> |names[i]| < BLOCK
      modifies table, table.elems, pool, pool.top, if pool.top == null then {} else {pool.top.memory}
      ensures |ps| == |names| && Valid() && Answers(Known(), names, ps)
    {
      ps := [];
      while |ps| < |names|
        invariant Valid() && Answers(Known(), names, ps)
        invariant table.elems == old(table.elems) || fresh(table.elems)
        invariant pool.top == old(pool.top) || fresh(pool.top)
        invariant pool.top != null && pool.top != old(pool.top) ==> fresh(pool.top.memory)
      {
        ghost var was := Known();
        var p := GetSymbolNamePtr(names[|ps|]);
        OneMoreAnswer(was, names, ps, p);
        ps := ps + [p];
      }
    }

    lemma OnePointerEach(names: seq<string>, ps: seq<Pointer>)
      requires Valid() && |ps| == |names| && Answers(Known(), names, ps)
      ensures forall i, j :: 0 <= i < |names| && 0 <= j < |names| ==> (ps[i] == ps[j] <==> names[i] == names[j])
    {
      forall i, j | 0 <= i < |names| && 0 <= j < |names| ensures ps[i] == ps[j] <==> names[i] == names[j] {
        OnePointerPerName(names[i], names[j]);
      }
    }
  }
}
