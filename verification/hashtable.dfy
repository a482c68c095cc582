/** The "hash table": a sorted array with binary search, in-place shifts and extension slots. */
module Hashtable {

  /** An entry: its key, and its slots; slot 0 is the value. */
  datatype Cell<K, V> = Cell(key: K, slots: seq<V>)

  // ----- the finite map -----

  ghost predicate Unique<K, V>(s: seq<Cell<K, V>>) {
    forall i, j :: 0 <= i < j < |s| ==> s[i].key != s[j].key
  }

  /** The finite map that entries stand for. */
  function AsMap<K, V>(s: seq<Cell<K, V>>): map<K, seq<V>> {
    if s == [] then map[] else AsMap(s[..|s| - 1])[s[|s| - 1].key := s[|s| - 1].slots]
  }

  lemma {:induction false} EntryAt<K, V>(s: seq<Cell<K, V>>, i: nat)
    requires Unique(s) && i < |s|
    ensures s[i].key in AsMap(s) && AsMap(s)[s[i].key] == s[i].slots
  {
    if i < |s| - 1 { EntryAt(s[..|s| - 1], i); }
  }

  lemma {:induction false} KeyHasEntry<K, V>(s: seq<Cell<K, V>>, k: K) returns (i: nat)
    requires k in AsMap(s)
    ensures i < |s| && s[i].key == k
  {
    if s[|s| - 1].key == k {
      i := |s| - 1;
    } else {
      i := KeyHasEntry(s[..|s| - 1], k);
    }
  }

  lemma {:induction false} Widths<K, V>(s: seq<Cell<K, V>>, width: nat)
    requires forall i :: 0 <= i < |s| ==> |s[i].slots| == width
    ensures forall k :: k in AsMap(s) ==> |AsMap(s)[k]| == width
  {
    if s != [] { Widths(s[..|s| - 1], width); }
  }

  /** t is s with one more entry, at i. */
  ghost predicate OneMore<K, V>(t: seq<Cell<K, V>>, s: seq<Cell<K, V>>, i: nat) {
    i < |t| == |s| + 1 && forall j :: 0 <= j < |s| ==> s[j] == t[if j < i then j else j + 1]
  }

  /** One more entry is one more key, and no other key changes. */
  lemma OneMoreKey<K, V>(t: seq<Cell<K, V>>, s: seq<Cell<K, V>>, i: nat)
    requires Unique(t) && Unique(s) && OneMore(t, s, i)
    ensures t[i].key !in AsMap(s) && AsMap(t) == AsMap(s)[t[i].key := t[i].slots]
  {
    var m := AsMap(s)[t[i].key := t[i].slots];
    if t[i].key in AsMap(s) {
      var j := KeyHasEntry(s, t[i].key);
    }
    forall k | k in AsMap(t) ensures k in m && m[k] == AsMap(t)[k] {
      var j := KeyHasEntry(t, k);
      EntryAt(t, j);
      if j != i {
        EntryAt(s, if j < i then j else j - 1);
      }
    }
    forall k | k in m ensures k in AsMap(t) {
      if k == t[i].key {
        EntryAt(t, i);
      } else {
        var j := KeyHasEntry(s, k);
        EntryAt(t, if j < i then j else j + 1);
      }
    }
  }

  /** Changing the slots of an entry changes them for its key alone. */
  lemma UpdatedMap<K, V>(s: seq<Cell<K, V>>, i: nat, slots: seq<V>)
    requires Unique(s) && i < |s|
    ensures Unique(s[i := Cell(s[i].key, slots)])
    ensures AsMap(s[i := Cell(s[i].key, slots)]) == AsMap(s)[s[i].key := slots]
  {
    var t := s[i := Cell(s[i].key, slots)];
    var m := AsMap(s)[s[i].key := slots];
    forall k | k in AsMap(t) ensures k in m && m[k] == AsMap(t)[k] {
      var j := KeyHasEntry(t, k);
      EntryAt(t, j);
      EntryAt(s, j);
    }
    forall k | k in m ensures k in AsMap(t) {
      if k == s[i].key {
        EntryAt(t, i);
      } else {
        var j := KeyHasEntry(s, k);
        EntryAt(t, j);
      }
    }
  }

  // ----- order -----

  predicate Before<K>(compare: (K, K) -> int, a: K, b: K) {
    compare(a, b) < 0
  }

  /** A strict total order, given as comparison functions give it. */
  ghost predicate Total<K(!new)>(compare: (K, K) -> int) {
    && (forall a, b {:trigger Before(compare, a, b)} :: compare(a, b) == 0 <==> a == b)
    && (forall a, b {:trigger Before(compare, a, b)} :: Before(compare, a, b) <==> compare(b, a) > 0)
    && (forall a, b, c {:trigger Before(compare, a, b), Before(compare, b, c)} ::
          Before(compare, a, b) && Before(compare, b, c) ==> Before(compare, a, c))
  }

  ghost predicate Sorted<K, V>(compare: (K, K) -> int, s: seq<Cell<K, V>>) {
    forall i, j :: 0 <= i < j < |s| ==> compare(s[i].key, s[j].key) < 0
  }

  /** Keys before i are smaller than k, and keys from i on are larger. */
  ghost predicate Splits<K, V>(compare: (K, K) -> int, s: seq<Cell<K, V>>, k: K, i: nat) {
    && (forall j :: 0 <= j < i && j < |s| ==> compare(s[j].key, k) < 0)
    && (forall j :: i <= j < |s| ==> compare(k, s[j].key) < 0)
  }

  lemma SortedIsUnique<K(!new), V>(compare: (K, K) -> int, s: seq<Cell<K, V>>)
    requires Total(compare) && Sorted(compare, s)
    ensures Unique(s)
  {
    forall i, j | 0 <= i < j < |s| ensures s[i].key != s[j].key {
      assert Before(compare, s[i].key, s[j].key);
    }
  }

  lemma SmallerBefore<K(!new), V>(compare: (K, K) -> int, s: seq<Cell<K, V>>, mid: nat, k: K)
    requires Total(compare) && Sorted(compare, s) && mid < |s| && compare(s[mid].key, k) < 0
    ensures forall j :: 0 <= j <= mid ==> compare(s[j].key, k) < 0
  {
    forall j | 0 <= j < mid ensures compare(s[j].key, k) < 0 {
      assert Before(compare, s[j].key, s[mid].key) && Before(compare, s[mid].key, k);
      assert Before(compare, s[j].key, k);
    }
  }

  lemma LargerAfter<K(!new), V>(compare: (K, K) -> int, s: seq<Cell<K, V>>, mid: nat, k: K)
    requires Total(compare) && Sorted(compare, s) && mid < |s| && compare(s[mid].key, k) > 0
    ensures forall j :: mid <= j < |s| ==> compare(k, s[j].key) < 0
  {
    assert Before(compare, k, s[mid].key);
    forall j | mid < j < |s| ensures compare(k, s[j].key) < 0 {
      assert Before(compare, s[mid].key, s[j].key);
      assert Before(compare, k, s[j].key);
    }
  }

  lemma StaysSorted<K, V>(compare: (K, K) -> int, t: seq<Cell<K, V>>, s: seq<Cell<K, V>>, i: nat)
    requires OneMore(t, s, i)
    ensures Sorted(compare, t) ==> Sorted(compare, s)
    ensures Sorted(compare, s) && Splits(compare, s, t[i].key, i) ==> Sorted(compare, t)
  {
    if Sorted(compare, t) {
      forall a, b | 0 <= a < b < |s| ensures compare(s[a].key, s[b].key) < 0 {
        assert compare(t[if a < i then a else a + 1].key, t[if b < i then b else b + 1].key) < 0;
      }
    }
    if Sorted(compare, s) && Splits(compare, s, t[i].key, i) {
      forall a, b | 0 <= a < b < |t| ensures compare(t[a].key, t[b].key) < 0 {
        if a == i {
          assert t[b] == s[b - 1];
        } else if b == i {
          assert t[a] == s[a];
        } else {
          assert t[a] == s[if a < i then a else a - 1] && t[b] == s[if b < i then b else b - 1];
        }
      }
    }
  }

  /** A key that splits the entries is not among them. */
  lemma SplitIsAbsent<K(!new), V>(compare: (K, K) -> int, s: seq<Cell<K, V>>, k: K, i: nat)
    requires Total(compare) && Splits(compare, s, k, i)
    ensures k !in AsMap(s)
  {
    assert !Before(compare, k, k);
    if k in AsMap(s) { var j := KeyHasEntry(s, k); }
  }

  // ----- the table -----

  /** elems has room for as many entries as its length; used of them are in use, sorted by key.
      Memory that is not in use holds whatever it held before, or blank at first. */
  class Table<K(!new), V> {
    const compare: (K, K) -> int
    const width: nat
    const grow: nat
    const blank: Cell<K, V>
    var elems: array<Cell<K, V>>
    var used: nat

    constructor (order: (K, K) -> int, size: nat, extend: nat, extension: nat, memory: Cell<K, V>)
      requires Total(order) && extend > 0 && extension > 0 && |memory.slots| == extend
      ensures Valid() && fresh(elems) && Contents() == map[]
      ensures compare == order && width == extend && grow == extension && blank == memory
    {
      compare, width, grow, blank := order, extend, extension, memory;
      elems, used := new Cell<K, V>[size](_ => memory), 0;
    }

    ghost predicate Valid()
      reads this, elems
    {
      && width > 0 && grow > 0 && |blank.slots| == width && used <= elems.Length && Total(compare)
      && Sorted(compare, elems[..used]) && forall i :: 0 <= i < elems.Length ==> |elems[i].slots| == width
    }

    ghost function Contents(): (m: map<K, seq<V>>)
      requires Valid()
      reads this, elems
      ensures forall k :: k in m ==> |m[k]| == width
    {
      Widths(elems[..used], width);
      AsMap(elems[..used])
    }

    /** Where a key is, or where it would go. */
    method SeekInsertPosition(key: K) returns (position: nat, isKey: bool)
      requires Valid()
      ensures position <= used
      ensures isKey ==> position < used && elems[position].key == key && key in Contents()
      ensures !isKey ==> Splits(compare, elems[..used], key, position) && key !in Contents()
    {
      var low, high := 0, used - 1;
      ghost var s := elems[..used];
      while low <= high
        invariant 0 <= low <= high + 1 <= used
        invariant forall j :: 0 <= j < low ==> compare(s[j].key, key) < 0
        invariant forall j :: high < j < used ==> compare(key, s[j].key) < 0
        decreases high - low
      {
        var mid := (low + high) / 2;
        var order := compare(elems[mid].key, key);
        assert s[mid] == elems[mid] && (Before(compare, s[mid].key, key) <==> order < 0);
        if order == 0 {
          SortedIsUnique(compare, s);
          EntryAt(s, mid);
          return mid, true;
        } else if order < 0 {
          SmallerBefore(compare, s, mid, key);
          low := mid + 1;
        } else {
          LargerAfter(compare, s, mid, key);
          high := mid - 1;
        }
      }
      SplitIsAbsent(compare, s, key, low);
      return low, false;
    }

    /** Where a key is, or -1. */
    method FindPosition(key: K) returns (position: int)
      requires Valid()
      ensures position >= 0 ==> position < used && elems[position].key == key
      ensures position >= 0 <==> key in Contents()
      ensures position >= 0 || position == -1
    {
      var i, isKey := SeekInsertPosition(key);
      position := if isKey then i else -1;
    }

    method Extend()
      requires Valid()
      modifies this`elems
      ensures Valid() && fresh(elems) && elems.Length == old(elems.Length) + grow && Contents() == old(Contents())
      ensures elems[..used] == old(elems[..used])
    {
      var more := new Cell<K, V>[elems.Length + grow](
        i requires i >= 0 reads this, elems => if i < elems.Length then elems[i] else blank);
      elems := more;
      assert elems[..used] == old(elems[..used]);
    }

    /** Makes room at position by shifting everything from there on, used or not. */
    method OpenGap(position: nat)
      requires Valid() && position <= used < elems.Length
      modifies elems
      ensures OneMore(elems[..used + 1], old(elems[..used]), position) && elems[position] == old(elems[position])
      ensures forall i :: 0 <= i < elems.Length ==> |elems[i].slots| == width
    {
      if position < used {
        forall i | position < i < elems.Length { elems[i] := elems[i - 1]; }
      }
    }

    method CloseGap(position: nat)
      requires Valid() && position < used
      modifies elems
      ensures OneMore(old(elems[..used]), elems[..used - 1], position)
      ensures forall i :: 0 <= i < elems.Length ==> |elems[i].slots| == width
    {
      ghost var t := elems[..];
      forall i | position <= i < used - 1 { elems[i] := elems[i + 1]; }
      assert forall i :: 0 <= i < elems.Length ==> elems[i] == t[if position <= i < used - 1 then i + 1 else i];
    }

    /** Sets the value of a key. A key that is there keeps its extension slots; those of a new key
        are what its cell held before, which is what the next key has in them. */
    method Insert(key: K, value: V) returns (handle: nat)
      requires Valid()
      modifies this, elems
      ensures Valid() && (elems == old(elems) || fresh(elems))
      ensures 0 < handle <= used && elems[handle - 1].key == key
      ensures key in old(Contents()) ==> Contents() == old(Contents())[key := old(Contents())[key][0 := value]]
      ensures key !in old(Contents()) ==>
        key in Contents() && Contents()[key][0] == value && Contents() == old(Contents())[key := Contents()[key]]
      ensures key !in old(Contents()) && handle <= old(used) ==>
        Contents()[key][1..] == old(elems[..])[handle - 1].slots[1..]
    {
      var position, isKey := SeekInsertPosition(key);
      if isKey {
        SetSlot(position, 0, value);
      } else {
        if elems.Length == used { Extend(); }
        InsertNew(position, key, value);
      }
      handle := position + 1;
    }

    method InsertNew(position: nat, key: K, value: V)
      requires Valid() && position <= used < elems.Length && Splits(compare, elems[..used], key, position)
      modifies this`used, elems
      ensures Valid() && used == old(used) + 1 && elems[position].key == key
      ensures key in Contents() && Contents()[key] == old(elems[position].slots)[0 := value]
      ensures Contents() == old(Contents())[key := Contents()[key]]
    {
      ghost var s := elems[..used];
      OpenGap(position);
      elems[position] := Cell(key, elems[position].slots[0 := value]);
      used := used + 1;
      Grown(elems[..used], s, position);
    }

    lemma Grown(t: seq<Cell<K, V>>, s: seq<Cell<K, V>>, position: nat)
      requires Total(compare) && Sorted(compare, s) && OneMore(t, s, position)
        && Splits(compare, s, t[position].key, position)
      ensures Sorted(compare, t) && AsMap(t) == AsMap(s)[t[position].key := t[position].slots]
    {
      StaysSorted(compare, t, s, position);
      SortedIsUnique(compare, s);
      SortedIsUnique(compare, t);
      OneMoreKey(t, s, position);
    }

    lemma Shrunk(t: seq<Cell<K, V>>, s: seq<Cell<K, V>>, position: nat)
      requires Total(compare) && Sorted(compare, t) && OneMore(t, s, position)
      ensures Sorted(compare, s) && AsMap(s) == AsMap(t) - {t[position].key}
    {
      StaysSorted(compare, t, s, position);
      SortedIsUnique(compare, s);
      SortedIsUnique(compare, t);
      OneMoreKey(t, s, position);
    }

    /** Sets one slot of an entry. */
    method SetSlot(position: nat, index: nat, value: V)
      requires Valid() && position < used && index < width
      modifies elems
      ensures Valid() && elems[position].key == old(elems[position].key)
      ensures var key := elems[position].key;
        key in old(Contents()) && Contents() == old(Contents())[key := old(Contents())[key][index := value]]
    {
      ghost var s := elems[..used];
      SortedIsUnique(compare, s);
      EntryAt(s, position);
      var c := elems[position];
      UpdatedMap(s, position, c.slots[index := value]);
      elems[position] := Cell(c.key, c.slots[index := value]);
      assert elems[..used] == s[position := Cell(c.key, c.slots[index := value])];
    }

    /** Sets a slot through a handle; no slot beyond the width. */
    method SetExtendValue(handle: nat, index: int, value: V)
      requires Valid() && 0 < handle <= used
      modifies elems
      ensures Valid() && elems[handle - 1].key == old(elems[handle - 1].key)
      ensures var key := elems[handle - 1].key;
        key in old(Contents()) && Contents() ==
          if 0 <= index < width then old(Contents())[key := old(Contents())[key][index := value]] else old(Contents())
    {
      ghost var s := elems[..used];
      SortedIsUnique(compare, s);
      EntryAt(s, handle - 1);
      if 0 <= index < width { SetSlot(handle - 1, index, value); }
    }

    /** Reads a slot through a handle. */
    method GetExtendValue(handle: nat, index: int, none: V) returns (value: V)
      requires Valid() && 0 < handle <= used
      ensures elems[handle - 1].key in Contents()
      ensures value == if 0 <= index < width then Contents()[elems[handle - 1].key][index] else none
    {
      SortedIsUnique(compare, elems[..used]);
      EntryAt(elems[..used], handle - 1);
      value := if 0 <= index < width then elems[handle - 1].slots[index] else none;
    }

    /** The handle of a key, or 0, and its value. */
    method Find(key: K, none: V) returns (handle: nat, value: V)
      requires Valid()
      ensures handle == 0 <==> key !in Contents()
      ensures handle != 0 ==> handle <= used && elems[handle - 1].key == key
      ensures value == if key in Contents() then Contents()[key][0] else none
    {
      var position := FindPosition(key);
      handle, value := 0, none;
      if position >= 0 {
        SortedIsUnique(compare, elems[..used]);
        EntryAt(elems[..used], position);
        handle, value := position + 1, elems[position].slots[0];
      }
    }

    method Remove(key: K)
      requires Valid()
      modifies this`used, elems
      ensures Valid() && Contents() == old(Contents()) - {key}
    {
      var position := FindPosition(key);
      if position >= 0 {
        ghost var s := elems[..used];
        CloseGap(position);
        used := used - 1;
        Shrunk(s, elems[..used], position);
      }
    }

    /** Enumeration: every key once, in order. */
    method Keys() returns (keys: seq<K>)
      requires Valid()
      ensures forall i, j :: 0 <= i < j < |keys| ==> compare(keys[i], keys[j]) < 0
      ensures forall k :: k in keys <==> k in Contents()
    {
      keys := [];
      var at := if used == 0 then 0 else 1;
      while at != 0
        invariant 0 <= at <= used
        invariant |keys| == (if at == 0 then used else at - 1)
        invariant forall i :: 0 <= i < |keys| ==> keys[i] == elems[i].key
        decreases if at == 0 then 0 else used - at + 1
      {
        var index := at - 1;
        keys := keys + [elems[index].key];
        at := if index + 1 < used then index + 2 else 0;
      }
      ghost var s := elems[..used];
      assert forall i :: 0 <= i < used ==> keys[i] == s[i].key;
      SortedIsUnique(compare, s);
      forall k | k in keys ensures k in AsMap(s) {
        var i :| 0 <= i < |keys| && keys[i] == k;
        EntryAt(s, i);
      }
      forall k | k in AsMap(s) ensures k in keys {
        var i := KeyHasEntry(s, k);
        assert keys[i] == k;
      }
    }
  }
}
