/** The operand stack: an array that grows, and the number of cells in use. */
module OperandStack {
  import opened Script

  const SIZE: nat := 64 * 1024

  class Stack {
    var cells: array<Value>
    var current: nat
    const extension: nat

    /** A positive extension: with none a full stack would stay full. */
    constructor (more: nat)
      requires more > 0
      ensures Valid() && fresh(cells) && Contents() == []
    {
      cells := new Value[SIZE](_ => Nothing);
      current, extension := 0, more;
    }

    ghost predicate Valid()
      reads this
    {
      current <= cells.Length && extension > 0
    }

    ghost function Contents(): seq<Value>
      requires Valid()
      reads this, cells
    {
      cells[..current]
    }

    method Extend()
      requires Valid()
      modifies this`cells
      ensures Valid() && fresh(cells) && cells.Length == old(cells.Length) + extension && Contents() == old(Contents())
    {
      var more := new Value[cells.Length + extension](
        i requires 0 <= i reads this, cells => if i < cells.Length then cells[i] else Nothing);
      cells := more;
    }

    method Push(value: Value)
      requires Valid()
      modifies this, cells
      ensures Valid() && (cells == old(cells) || fresh(cells))
      ensures Contents() == old(Contents()) + [value]
    {
      if current == cells.Length { Extend(); }
      cells[current] := value;
      current := current + 1;
    }

    method Pop() returns (value: Value)
      requires Valid() && Contents() != []
      modifies this`current
      ensures Valid() && old(Contents()) == Contents() + [value]
    {
      current := current - 1;
      value := cells[current];
    }

    /** The value at a position counted from the top. */
    method At(position: nat) returns (value: Value)
      requires Valid() && position < |Contents()|
      ensures value == Contents()[|Contents()| - 1 - position]
    {
      value := cells[current - (position + 1)];
    }

    method SetCurrent(n: nat)
      requires Valid() && n <= |Contents()|
      modifies this`current
      ensures Valid() && Contents() == old(Contents())[..n]
    {
      current := n;
    }
  }
}
