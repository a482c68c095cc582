# A verified model of the mksc script interpreter

mksc compiles a small script language with an operator-precedence parser, runs the tree on an
explicit operand stack, manages memory with a mark-and-sweep collector over blocks of 512 slots, and
keeps every symbol table in a sorted array. This project models those four parts in Dafny, in the form
the C code has (classes whose fields are updated in place, arrays, loops), proves each routine against
a small functional specification, and proves what that specification promises.

`dafny verify dfyconfig.toml` checks everything.

## The parts

**Expression compiler** (`tokens`, `precedence`, `grammar`, `printer`, `roundtrip`, `levels`, `parser`).
`Precedence` says what tree the priorities 1 to 15 and left-associativity allow, proves that there is
at most one over given operands and operators, builds it by splitting at the loosest operator, and
shows that growing a right spine builds the same tree with never more than 15 pending operators.
`Grammar` gives, routine by routine, what the compiler accepts and how far it reads, and terminates on
the number of tokens left. `Parser` is the compiler itself: a lexer with a cursor, nodes that are
re-hung in place, the vector of pending operators. `RoundTrip` proves that it inverts a printer which
puts parentheses around an operator only where priority or left-associativity demands them. `Levels` names
the marks and tokens one by one: which of two operators takes the operand between them, where an expression
ends, and how numbers, calls, arrays, chains and indexes are spelled.

**Collector and allocators** (`heap`, `tracing`, `exactness`, `leaves`, `jumps`, `lostparts`, `images`,
`slots`, `collector`, `collection`, `paths`). `Heap` has the object graph and reachability by its real pointers.
`Tracing` has the scans as functions: items are marked after what they point at, tables, vectors and
frames before, and the recursion ends because the pair (containers not yet marked, rank along the
acyclic pointers from item to item) falls. `Collector` sets the mark bits in place and sweeps; `Slots`
has the blocks, the four allocators and the sweep of one pool; `Collection` says what one and two
collections free, down to the slots of the pools after calls of `Vm.Collect`. `Paths` says the same field by
field, by paths from the roots: a guarded collection leaves no kept object with a pointer to a freed one.

*Mark bits stay set on free slots that can be reached.* A frame slot that is used again keeps the last
result of the call before, and a collection before the first statement of the new call marks the item
there, freed or not; the sweep passes free slots by (`mksc/src/mk_gc.c:286`). `Collection` shows that
the bits are clear behind a guarded collection iff no free slot can be reached, and has that frame
written out. `Leaves` shows why it does no harm: freed items, tables and vectors point at nothing, and a
scan that starts with marks on such objects marks what it marks without them.

*Marking is not exact in general.* The collector follows the entries of a table from the most derived
part of each object when it comes to the table through a reference (`mksc/src/mk_gc.c:186`), and so
jumps over the entry "super" of an object's own table. A collection during `x.member = f()`, or while
such an assignment is the last result of the current frame, frees the superclass parts of x, unless
they are new, when the member was found in any part but the least derived one. `Exactness` proves that nothing unreachable is
ever marked, and that marking is exact when no reachable reference points into the variables of a part
that has a superclass part. `Jumps` says what is marked otherwise: when the members of an object are
reached through a reference first, exactly what the pointers lead to once tables and vectors are led
to most derived parts; so marking is complete iff the part in the "super" slot there can be reached
along those. When they are reached through their own part first, as in `h(x, x.m = f())`, marking is
complete. `LostParts` has the heaps on which it cannot, with any frames, globals, members and
method items, the condition that is necessary and sufficient on them, and one such heap written out:
two frames, two classes in the globals, an object of the derived class with a method in each part.
`Images` shows that objects linked as their construction links them form the heaps that all this is
about.

**Executor** (`script`, `numbers`, `evaluator`, `stack`, `executor`, `fuel`, `depth`, `tidy`, `direct`,
`agreement`, `control`, `flow`, `calls`). The language has integers, local and global variables, assignment, operators, calls with
default arguments, code values, blocks, if, both loops and try. `Executor` is the code of vm.c: one
stack, one current frame, result codes threaded through mutually recursive routines. `Evaluator` says as
functions what each routine does to the stack and the state, and the routines are proved to do that and
no more, on every run: what was on the stack at entry is untouched, the current frame is back, and on
top are exactly the operands named, also those that vm.c leaves behind. It leaves some when the
condition of a catch clause throws and when a code value is called with more arguments than it has
parameters (`mksc/src/vm.c:751-764`, `mksc/src/vm.c:2023-2032`). `Depth` proves that a call whose parts
are clean nets one operand iff it has no more arguments than parameters, and that behind a row of such
calls the debug assertion on the stack depth holds iff none has more; for calls of code values with
constant bodies and arguments the condition is one on the text and the variables before the run. It
fails after `g = {0}` and `g(7)`, and `x = g(7)` throws.

`Direct` is an evaluator in which nothing is left behind because there are no operands: an expression
has a value, an operator gets the two values of its operands, and parameters get the values of the
arguments by position. `Agreement` proves that on the scripts that `Tidy` admits the executor has its
result code, state and value, with the stack back where it was. `Tidy` is a test on the text, name by
name. Fuel stands for the depth of the C stack; `Fuel` proves that more of it never changes an outcome.

What the language means is also said without the evaluators' own steps: `Numbers` has the arithmetic of the
operators as laws, `Flow` the rounds that a loop runs, the branch that an if takes, what lines do and what
a catch clause finds, `Calls` which variable a name is, which value each parameter gets and what a call
runs. `Calls.MissingArgument` works one call out in the executor.

**Tables** (`hashtable`, `symbols`, `classes`, `objects`, `strings`, `tagged`). The sorted array refines
a finite map from keys to slots; symbol pointers are one to one with names and their bytes never
change; superclass chains are acyclic; an object is one item per class, linked both ways; a written
member reads back and no other changes; string escapes round-trip; tagged integers compare and read
back as integers. The least 32-bit integer is the exception: it does not fit a word, takes one all the
same and reads back as 0.

## Where the code and its comments differ

The code is followed.

- `mksc/include/mk.h:516` gives the range of integers kept in a word as about 2^30;
  `mksc/src/node.c:287` boxes from 2^26 on.
- The debug assertion at `mksc/src/vm.c:995-1003` is not true of every script: Depth.DeeperStack has
  one that ends a block with one operand more than before.
- `a || b` and `a && b` always evaluate both operands, `continue` in a loop that tests last skips the
  test, and `finally` runs only after a normal end.
- An assignment has the reference itself as its value, so `if a = 0` takes the branch.
- The allocator of vectors hands out a slot in use once its first block is full.
- Unary plus negates; a sign stays in force for the later links of a chain; a trailing comma is
  accepted; an operator mark before the end of the input fails.

## Model

| member | source | states |
|---|---|---|
| Precedence.CanonicalUnique | mksc/src/compile.c:1499-1565 | Over given operands and operators at most one tree has left operator children of priority at least the parent's and right ones strictly above it. |
| Precedence.BuildIsTheCanonicalTree | mksc/src/compile.c:1499-1565 | The tree obtained by splitting at the rightmost loosest operator is that one tree, and nothing else is. |
| Precedence.CloseIsCanonical | mksc/src/compile.c:1499-1516 | Supplying the open child of a spine with rising priorities gives a tree that obeys the priorities, rooted at the first pending operator. |
| Precedence.CloseTraversal | mksc/src/compile.c:1499-1516 | Its in-order traversal is the input read so far followed by the operand supplied. |
| Precedence.GrowCorrect | mksc/src/compile.c:1519-1564 | Re-hanging the spine for a new operator keeps its priorities strictly rising and appends exactly one operand and one operator to the input it stands for. |
| Precedence.SpineShort | mksc/include/mk.h:656-682 | An expression of any length never has more than 15 pending operators, so the vector of 16 never grows. |
| RoundTrip.RowIsTheCanonicalTree | mksc/src/compile.c:1416-1596 | For every row of operands and operators followed by a terminator, the expression is read as the tree that keeps their order and obeys the priorities. |
| RoundTrip.PrintParses | mksc/src/compile.c:1416-1596 | Printing any expression tree, with parentheses around an operator only where priority or left-associativity demands them, and reading it gives the tree back, and reading stops exactly at the terminator. |
| RoundTrip.ListParses | mksc/src/compile.c:1023-1049 | Printed argument and element lists are read back element by element. |
| RoundTrip.CallParses | mksc/src/compile.c:1052-1104 | A printed call is read back with its name and arguments. |
| RoundTrip.ChainParses | mksc/src/compile.c:1107-1385 | A printed dot chain is read back with all its links, in order. |
| RoundTrip.IndexParses | mksc/src/compile.c:1318-1349 | A printed index chain is read back; the first bracket after a dot chain takes the whole chain as its base. |
| RoundTrip.NegativeParses | mksc/src/compile.c:1124-1145 | A negative literal is read back as that integer. |
| Levels.TighterTakesTheOperand | mksc/include/mk.h:656-674 | Of two operators in a row the one in the tighter of the ten classes takes the operand between them, the left one when they are in the same class; the classes are named mark by mark. |
| Levels.WritableMarks | mksc/include/mk.h:656-682 | These marks are all the binary operators there are. |
| Levels.EndsExactlyAt | mksc/src/compile.c:1416-1497 | Behind an operand a token that neither prolongs it nor is an operator ends the expression iff it is one of those listed for the purpose, and fails otherwise. |
| Levels.BarEndsBlockParameter | mksc/src/compile.c:1416-1497 | A bar in front of a block ends a block parameter, although it is an operator. |
| Levels.OperatorAtTheEndFails | mksc/src/compile.c:1566-1575 | An operator with nothing behind it makes the expression fail. |
| Levels.PlusNegates | mksc/src/compile.c:1124-1145 | A plus in front of a number negates it. |
| Levels.TrailingComma | mksc/src/compile.c:1023-1049 | A comma may stand behind the last argument or element. |
| Levels.SignedChainFails | mksc/src/compile.c:1107-1385 | A number with a sign does not begin a dot chain. |
| Levels.NumbersAreRead | mksc/src/compile.c:1124-1145 | A number, with or without a minus, is read as that integer. |
| Levels.CallIsRead | mksc/src/compile.c:1052-1104 | A name, a parenthesis, two expressions with a comma between them and a closing parenthesis are a call with those arguments in that order. |
| Levels.ArrayIsRead | mksc/src/compile.c:1159-1185 | The same between brackets is an array. |
| Levels.DotIsRead | mksc/src/compile.c:1350-1369 | Two names with a dot between them are a chain of both. |
| Levels.IndexIsRead | mksc/src/compile.c:1318-1349 | A bracket behind x.y takes an element of x.y. |
| Levels.ParenthesesAreRead | mksc/src/compile.c:1115-1123 | An operation in parentheses is that operation. |
| Parser.Vector.Push | mksc/src/vector.c:119-192 | Appends an element; the array is replaced only when it is full. |
| Parser.CloseInHeap | mksc/src/compile.c:1499-1516 | In the heap, the pending operators are exactly the right spine: once the open child is supplied, each one roots the closed tree of those after it. |
| Parser.FindLooser | mksc/src/compile.c:1525-1535 | Finds the last pending operator that binds more loosely than the new one, or none. |
| Parser.HangOperator | mksc/src/compile.c:1519-1564 | The new operator takes over the closed part of the spine as its left operand, in place, within the 16 slots of the vector. |
| Parser.TakeOperator | mksc/src/compile.c:1517-1575 | Goes on exactly when an operator follows and the input does not end behind it. |
| Parser.Finish | mksc/src/compile.c:1499-1516 | The last operand closes the spine, and the first pending operator is the root. |
| Parser.CompileExpression | mksc/src/compile.c:1416-1596 | Null exactly when the grammar fails; else new nodes that spell the unique tree, with the lexer just behind the expression. |
| Parser.CompileSymbol | mksc/src/compile.c:1107-1385 | The operand that the grammar describes: parentheses, signs, literals, names, calls, arrays, index and dot chains, linked in place. |
| Parser.CompileLink | mksc/src/compile.c:1115-1369 | One link of a dot chain with its index brackets. |
| Parser.CompileIndexes | mksc/src/compile.c:1318-1349 | Any number of index brackets behind a symbol. |
| Parser.CompileMethodCall | mksc/src/compile.c:1052-1104 | A call node with the argument list of the grammar, or null. |
| Parser.CompileArray | mksc/src/compile.c:1159-1185 | An array node with the element list of the grammar, or null. |
| Parser.CompileArguments | mksc/src/compile.c:1023-1049 | The list of the grammar, and the lexer at its closing mark or at the end. |
| Heap.ReachIsLeast | mksc/src/mk_gc.c:28-69 | What is reachable along pointers lies in every set that holds the roots and is closed under pointers. |
| Heap.ReachIsClosed | mksc/src/mk_gc.c:28-69 | What is reachable is such a set itself. |
| Tracing.ScanItemInside | mksc/src/mk_gc.c:159-207 | A scan marks nothing outside a closed set, however it jumps to the most derived part of an object. |
| Exactness.OnlyReachableMarked | mksc/src/mk_gc.c:39-58 | On every heap, only reachable objects are marked. |
| Exactness.ScanItemFinishes | mksc/src/mk_gc.c:159-207 | A scan of an item leaves no marked object unfinished that was not unfinished before, although items are marked after their children. |
| Exactness.BackFromTop | mksc/src/mk_gc.c:72-87 | What was followed from its most derived part is marked itself, because a part with a child is the "super" entry of the child's table. |
| Exactness.MarkedIffReachable | mksc/src/mk_gc.c:39-58 | While no reachable reference points into a part that has a superclass part, an object is marked iff it is reachable. |
| Jumps.EnteredInside | mksc/src/mk_gc.c:185-187 | A scan that comes to a table through a reference, on the operand stack or as the last result of the current frame, follows its entries only from their most derived parts, and stays inside any set that is confined but for that table. |
| Jumps.MarkedIffJumpedTo | mksc/src/mk_gc.c:139-207 | When the members of an object are reached through a reference first and no other reference leads to members, an object is marked iff it is reachable along the pointers that the collector follows, with tables and vectors led to most derived parts. |
| Jumps.CompleteIffSupersReached | mksc/src/mk_gc.c:139-207 | On those heaps marking is complete iff every part that the "super" slot of that table leads to is reachable along the jumps too. |
| Jumps.CompleteThroughPart | mksc/src/mk_gc.c:139-207 | When the members of an object are reached through its own part before any reference to them, on the stack or among what is scanned before the frames, marking is complete. |
| Jumps.CompleteIffSupersMarked | mksc/src/mk_gc.c:139-207 | On every heap with one table of members that references lead to, in whatever order it is reached, marking is complete iff the parts in its "super" slot are marked. |
| LostParts.PartsBelowAreLost | mksc/src/mk_gc.c:185-187 | On any heap where part k is reached through a reference first and nothing else leads to the parts below it, every part below k is reachable and not marked. |
| LostParts.BasePartIsLost | mksc/src/mk_gc.c:185-187 | In a collection under `x.member = f()`, with the frames of f and its caller, both classes in the globals and methods in both parts, the derived part of x is marked and its base part, though reachable, is not. |
| LostParts.CompleteIffLastPart | mksc/src/mk_gc.c:139-207 | On the heaps of PartsBelowAreLost marking is complete iff the table referred to is not that of a part with a superclass part, that is, iff the member belongs to the least derived part. |
| Images.ImagesAreSuperLinked | mksc/src/classObject.c:197-268 | However many objects lie in the heap, linked as object construction links them and as assignments leave them, every part with a child is the "super" entry of the child's table there. |
| Collector.TopOf | mksc/src/mk_gc.c:72-87 | The walk along child ends at the most derived part. |
| Collector.VisitItem | mksc/src/mk_gc.c:159-207 | Sets exactly the mark bits of the functional scan, and ends on every heap. |
| Collector.VisitTable | mksc/src/mk_gc.c:139-156 | Likewise for a table, marked before its entries. |
| Collector.VisitVector | mksc/src/mk_gc.c:116-136 | Likewise for a vector; entries of an unmanaged one are not followed. |
| Collector.VisitFrames | mksc/src/mk_gc.c:90-113 | Likewise for a frame and those before it. |
| Collector.Vm.Scan | mksc/src/mk_gc.c:39-58 | Marks from the operand stack, the exception object, the globals and the current frame, whatever marks are set before. |
| Collector.Vm.SweepAll | mksc/src/mk_gc.c:62-65 | Sweeps every slot of every pool once, and keeps the count of free slots of every block right. |
| Collector.Vm.Collect | mksc/src/mk_gc.c:28-69 | Collects when 1024 calls have gone by or it is forced, and else changes nothing. |
| Leaves.MarksOnLeavesStay | mksc/src/mk_gc.c:90-207 | A scan that starts with marks on objects that point at nothing marks what it marks without them, and those. |
| Collection.WhatIsKept | mksc/src/mk_gc.c:28-69 | On every heap an object stays allocated, unchanged and with clear bits, iff it was and is scanned or new; a free slot has its mark bit set iff it is scanned or had it set. |
| Collection.GarbageIsFreed | mksc/src/mk_gc.c:28-69 | Guarded or not, a collection frees every object neither reachable nor new, and changes nothing in what it keeps. |
| Collection.FreedExactly | mksc/src/mk_gc.c:28-69 | A guarded collection frees exactly the allocated objects that are neither reachable nor new, and leaves marked exactly the free slots that are reachable or were marked. |
| Collection.BitsAreClearIffLive | mksc/src/mk_gc.c:277-305 | Behind a guarded collection all mark bits are clear iff everything reachable is allocated. |
| Collection.ReusedFrameLeavesAMark | mksc/src/node.c:173-181 | A frame slot used again, whose last result is still that of the call before, leads to a freed item; a collection then leaves that item free and marked. |
| Collection.LostPartsAreFreed | mksc/src/mk_gc.c:185-187 | On the heaps of LostParts.PartsBelowAreLost every part below k is reachable, and is freed unless it is new. |
| Collection.ReadyAgain | mksc/src/mk_gc.c:28-69 | Everything a guarded collection relies on holds again after it, marks on free slots included, and the same objects are reachable. |
| Collection.TwoCollections | mksc/src/mk_gc.c:28-69 | Two collections in a row leave allocated exactly the reachable objects that were, with their contents and clear bits. |
| Collection.UnionFits | mksc/src/mk_gc.c:28-69 | Before a collection, the states of the slots of all pools together are those of the heap, mark bits included. |
| Collection.CollectGuarded | mksc/src/mk_gc.c:28-69 | A call of Vm.Collect leaves allocated, in every slot of every pool, exactly the objects that were and are reachable or new, unchanged and with clear bits, and marked exactly the free slots that are reachable or were marked. |
| Collection.CollectTwice | mksc/src/mk_gc.c:28-69 | Two calls of Vm.Collect in a row leave allocated, in every slot of every pool, exactly the reachable objects that were, unchanged and with clear bits; the second starts with the marks that the first has left on free slots. |
| Paths.NeededIffPath | mksc/src/mk_gc.c:90-207 | An object is reachable iff a path leads to it from a cell of the stack, the exception, the globals or the current frame, each step along a field that is named for each kind of object. |
| Paths.KeptIffPath | mksc/src/mk_gc.c:28-69 | A guarded collection leaves allocated what was and is new or has such a path, and nothing else. |
| Paths.NoPointerDangles | mksc/src/mk_gc.c:90-207 | What a guarded collection keeps, other than as new, is unchanged, and no field of it holds an object that the collection has freed. |
| Paths.FreedSlotIsEmpty | mksc/src/mk_gc.c:210-336 | A freed item, table or vector points at nothing afterwards and is still of its kind; a freed frame keeps its fields. |
| Slots.Block.Search | mksc/src/node.c:102-118 | The search from nextIndex, wrapping around, finds an unallocated slot iff the block has one, and else comes back to nextIndex. |
| Slots.Block.Take | mksc/src/node.c:119-127 | Allocates the slot as a new one, and freeSpace stays the number of unallocated slots. |
| Slots.Block.Sweep | mksc/src/mk_gc.c:277-305 | Frees the slots that are allocated and neither marked nor new, clears the bits of the others, and keeps freeSpace right. |
| Slots.FrontedLinked | mksc/src/node.c:95-100 | Moving a block to the front of the list leaves a list of all the blocks, the others in their order. |
| Slots.Pool.FindRoom | mksc/src/node.c:82-88 | The first block that counts a free slot, and the block before it. |
| Slots.Pool.AllocateInFront | mksc/src/hash.c:47-114 | Items and tables: never returns an allocated slot, adds a block only when all are full, loses no block, and changes no other slot. |
| Slots.Pool.AllocateInPlace | mksc/src/node.c:139-182 | Frames: the same, with the list left as it is. |
| Slots.Pool.AllocateVector | mksc/src/vector.c:72-117 | Vectors: looks in the first block only, and returns a slot in use iff that block is full. |
| Slots.Pool.Sweep | mksc/src/mk_gc.c:210-336 | Every slot of every block is swept, and every block still counts its free slots. |
| OperandStack.Stack.Push | mksc/include/vm_stack.h:44-54 | Adds a value on top of what was there, growing the array when it is full. |
| OperandStack.Stack.Pop | mksc/include/vm_stack.h:57-71 | Takes the top value off. |
| OperandStack.Stack.SetCurrent | mksc/include/vm_stack.h:102-105 | Cuts the stack back to a height. |
| Evaluator.Exec | mksc/src/vm.c:942-1021 | The body of a function ends only by returning or throwing: break and continue never leave it. A block that throws leaves no operand behind, save a function body left by break or continue. |
| Evaluator.ExecWhile | mksc/src/vm.c:868-940 | A loop never ends with break or continue. |
| Evaluator.Invoke | mksc/src/vm.c:1231-1303 | A call of a method or code value ends like an expression; only the body of a catch clause may end with break, continue or return. |
| Executor.Vm.ExecuteName | mksc/src/vm.c:1635-1767 | Finds a variable in the locals, the owner's locals or the globals, or creates it, and pushes its value or a reference. |
| Executor.Vm.CallAssignment | mksc/src/classReference.c:50-99 | Writes the topmost value to the variable that the reference below it names, and leaves the reference. |
| Executor.Vm.ExecuteExpr | mksc/src/vm.c:1407-1461 | Every run of an expression has the evaluator's code and state, leaves what was on the stack untouched, and on top of it exactly what the evaluator says; the current frame is as before. |
| Executor.Vm.ExecuteOperate | mksc/src/vm.c:1407-1461 | Both operands are evaluated, left first, and the operator of the left operand's class takes the two topmost values. |
| Numbers.AddThenTakeAway | mksc/src/classInt.c:44-65 | Adding b to a - b gives a back, and a - 0 is a. |
| Numbers.SumsGoUp | mksc/src/classInt.c:44-53 | A sum starts at its left operand and goes up by one with its right one; the order of the operands does not matter. |
| Numbers.ProductsGoUp | mksc/src/classInt.c:67-76 | A product with 0 is 0 and goes up by one operand when the other goes up by one. |
| Numbers.SumsWrap | mksc/src/classInt.c:44-76 | Sums, differences and products out of range are those modulo 2^32, save that the least integer becomes 0. |
| Numbers.QuotientAndRemainder | mksc/src/classInt.c:78-97 | Quotient and remainder give the dividend back, the remainder is smaller than the divisor and has the sign of the dividend, and both are 0 for the divisor 0. |
| Numbers.OrderIsBySubtraction | mksc/src/classInt.c:100-150 | a < b iff b - a is positive; > is < with the operands swapped, <= and >= are their negations. |
| Numbers.Comparisons | mksc/src/classInt.c:100-150 | A comparison of two integers and its opposite are 1 and 0, in every one of the three orders that they can have. |
| Numbers.LogicIsArithmetic | mksc/src/classObject.c:446-470 | && is the product and \|\| the sum of truth, on values of any kind. |
| Numbers.EqualValues | mksc/src/classObject.c:272-342 | Integers are equal by value and objects when they are one object. |
| Executor.Vm.PushParameters | mksc/src/vm.c:1305-1344 | Leaves the owner, the arguments and the defaults of the missing ones, in order, or throws. |
| Executor.Vm.EnterFrame | mksc/src/vm.c:1231-1273 | Pops the parameters into a new frame by name, then "this"; what was below stays. |
| Executor.Vm.CallMethod | mksc/src/vm.c:1231-1303 | The call leaves its value where its parameters were, and below it what was pushed beyond them; the current frame is the caller's again for every result code. |
| Executor.Vm.ExecuteCall | mksc/src/vm.c:1976-2092 | A call by name, to a code value in a variable or a method, is the evaluator's call, surplus arguments included. |
| Executor.Vm.ExecuteBlock | mksc/src/vm.c:942-1021 | Every run of a block has the evaluator's code, state and operands left behind, one value more on return, and nothing below changed; a throw out of a block that is no function body restores the depth at entry. |
| Executor.Vm.ExecuteStatement | mksc/src/vm.c:782-940 | The same for a statement of any kind. |
| Executor.Vm.ExecuteLine | mksc/src/vm.c:1591-1633 | Return, raise, break, continue and a trailing if, as the evaluator has them. |
| Executor.Vm.ExecuteIf | mksc/src/vm.c:841-866 | The first branch whose condition holds, with conditions evaluated in order and popped. |
| Executor.Vm.ExecuteWhile | mksc/src/vm.c:868-940 | The evaluator's loop, never ending with break or continue, with what its rounds leave behind and nothing else on the stack. |
| Executor.Vm.ExecuteTry | mksc/src/vm.c:782-825 | The body, then the catches if it threw, or else the block for no exception; conditions that throw included. |
| Executor.Vm.ExecuteCatches | mksc/src/vm.c:744-814 | Clauses are asked in order and the first that takes the exception handles it; a condition that throws does not take it, and its operands stay. |
| Fuel.ExecMore | mksc/include/vm_stack.h:5-15 | One more level of depth does not change an outcome that was reached. |
| Fuel.OneOutcome | mksc/include/vm_stack.h:5-15 | Two runs that both finish end with the same code, state and value, whatever depth each was allowed. |
| Depth.SurplusIsLeft | mksc/src/vm.c:2023-2032 | A call whose arguments and body leave nothing else behind leaves its surplus arguments: it nets one operand iff there are no more arguments than parameters. |
| Depth.RowPassesIffCovered | mksc/src/vm.c:995-1003 | Behind a row of call statements with clean parts that ends normally, the debug assertion on the stack depth holds iff no call had more arguments than parameters when it was come to. |
| Depth.StillRowPasses | mksc/src/vm.c:995-1003 | For a row of calls with constants of code values with constant bodies in local variables, the assertion holds iff no call has more arguments than the code in its variable has parameters, before anything runs. |
| Depth.SurplusAssignmentThrows | mksc/src/vm.c:1442-1458 | Assigning such a call throws when it has more arguments than parameters, because what it leaves behind is no reference. |
| Depth.DeeperStack | mksc/src/vm.c:995-1003 | A block with `g = {0}` and `g(7)` ends normally with one operand more on the stack, and the assertion fails. |
| Tidy.QuietEnds | mksc/src/classObject.c:447-485 | Expressions without calls and with no operators but comparison and logic never throw and leave nothing but their value. |
| Tidy.EvalTidy | mksc/src/vm.c:1407-1461 | In a script whose catch conditions are quiet and which calls no name with more arguments than all it can stand for have parameters, every expression leaves its value and nothing else. |
| Tidy.ExecTidy | mksc/src/vm.c:942-1021 | So does every block leave nothing behind, and all values it leaves are again tidy. |
| Tidy.TidyBlocksFit | mksc/src/vm.c:995-1019 | On such scripts the stack after every finished run of a block is the stack before, with the returned value on top when it returns. |
| Direct.BoundByPosition | mksc/src/vm.c:1247-1259 | Parameters get the values of the arguments in the same positions; of two with the same name the first counts. |
| Calls.NameIsLocated | mksc/src/vm.c:1635-1767 | A name is a local variable, else one of the owner, else a global one, and else becomes a local variable with value 0. |
| Calls.OwnersNameIsLocated | mksc/src/vm.c:1651-1665 | Behind owner. the search starts at the owner and passes the globals by. |
| Calls.NameIsLookedUp | mksc/src/vm.c:1635-1767 | Its value is that of the variable found in this order. |
| Calls.LocalIsAssigned | mksc/src/classReference.c:50-99 | Assigning a local variable writes the value of the right-hand side there; the expression is worth the reference. |
| Calls.OperandsInOrder | mksc/src/vm.c:1407-1461 | The right operand is evaluated in the state that the left one has left, and the operator gets left and right in that order. |
| Calls.CalleeIsFound | mksc/src/vm.c:1976-2046 | A local variable or one of the owner hides a method of the same name, whatever it holds; globals do not, and a method with too few parameters is not found. |
| Calls.ParametersInOrder | mksc/src/vm.c:1305-1344 | When the arguments of a call end normally, value i is that of argument i, or of the default of parameter i when there is no argument i, in the state that the one before has left. |
| Calls.PushedInOrder | mksc/src/vm.c:1305-1344 | On tidy scripts the values that the executor pushes are those. |
| Calls.DefaultsStop | mksc/src/vm.c:1328-1341 | When the defaults do not end normally, the first that is missing or does not end normally is where they stop, with a throw or with its result code. |
| Calls.MissingArgumentThrows | mksc/src/vm.c:1328-1341 | A call whose arguments end normally throws for want of a default iff some parameter without an argument has none, as long as the defaults there are end normally. |
| Calls.CallHasItsFrame | mksc/src/vm.c:1231-1273 | A call adds one frame, changes no other, and has this, the owner, the caller's frame and exactly the parameters as local variables in it; of two with the same name the first counts. |
| Calls.CallRuns | mksc/src/vm.c:2048-2092 | A call whose arguments end normally runs the body of its callee in that frame, and is worth what the body returns. |
| Calls.CallFails | mksc/src/vm.c:2048-2092 | A call that finds nothing, or lacks a default, throws a new error; what its arguments throw goes through. |
| Calls.MissingArgument | mksc/src/vm.c:1976-2092 | For all integers m, n and a in range, g(a) with g = {x = m, y = n: x - y} is worth a - n in the executor. |
| Agreement.EvalAgrees | mksc/src/vm.c:1407-1461 | On tidy scripts an expression has the result code, state and value that an evaluator without a stack gives it: operators get the values of their operands, parameters those of the arguments. |
| Agreement.ExecAgrees | mksc/src/vm.c:942-1021 | So has a block: sequences, branches, loops and exceptions as an evaluator without a stack has them. |
| Agreement.BlocksRunDirectly | mksc/src/vm.c:942-1021 | A finished run of a block of a tidy script by the executor has the result code, state and returned value of the evaluator without a stack, and the stack back with that value on it. |
| Control.NoShortCircuit | mksc/src/vm.c:1427-1441 | Two executors side by side, one running `left && right` or `left \|\| right` and the other left and then right: same result code, same state, and the same stack unless both end normally, whatever left is worth. |
| Control.ContinueSkipsTheTest | mksc/src/vm.c:901-905 | In a loop that tests last, continue skips the test: a body that starts with it never ends. |
| Control.FirstMatchHandles | mksc/src/vm.c:744-814 | The first clause that takes the exception handles it with no exception pending, above what earlier conditions have left; when none does, it goes on. |
| Control.FinallyAfterNormalEnd | mksc/src/vm.c:818-821 | Two executors side by side, one running a try statement with a finally block and the other the statement without it and then, iff that ended normally, the block: same result code, state and stack. |
| Control.LastLineIsReturned | mksc/src/vm.c:827-839 | A function that runs to its end returns the value of its last line. |
| Control.OneAfterTheOther | mksc/src/vm.c:953-993 | Statements in a row: the second part starts in the state in which the first ends, and is not run when the first does not end normally. |
| Control.CatchMayLeave | mksc/src/vm.c:1268-1295 | The body of a catch clause may end with break, continue and return. |
| Control.AssignmentIsLocal | mksc/src/classReference.c:50-99 | An assignment changes the variable that the name stood for before the right-hand side ran, or the one that a reference left behind by the right-hand side names, and no other. |
| Flow.TestsFirst | mksc/src/vm.c:868-940 | A loop that tests first ends in the test's state when the test does not hold, and else runs its body next; behind a normal end or continue it goes on from the body's state, behind break it ends there, and whatever else comes leaves it. |
| Flow.TestsLast | mksc/src/vm.c:868-940 | A loop that tests last runs its body at once and tests behind a normal end of it only, in the state it has left. |
| Flow.EndsBehindItsRounds | mksc/src/vm.c:868-940 | A loop of either kind that ends normally has run a row of rounds, each from where the one before has led, and ends where the test does not hold or a break comes. |
| Flow.RoundsAreRun | mksc/src/vm.c:868-940 | And wherever such a row of rounds leads, the loop ends. |
| Flow.FirstBranchRuns | mksc/src/vm.c:841-866 | The conditions of an if are asked in order, each in the state that the one before has left; the first branch whose condition holds, or that has none, runs, and no other. |
| Flow.TrailingIf | mksc/src/vm.c:1407-1461 | A line with a trailing if runs iff the condition holds, in the state that the condition has left. |
| Flow.ValuesAreReturnedAndRaised | mksc/src/vm.c:1590-1604 | Return and raise evaluate their expression once; raise makes its value the exception. |
| Flow.LoopLinesDoNotLeaveFunctions | mksc/src/vm.c:942-1021 | A function body left by break or continue throws an error object that was not there before. |
| Flow.TryGoesOn | mksc/src/vm.c:782-825 | The clauses are asked iff the body throws, with a new error when there is no exception object; the block for no exception runs iff the body ends normally. |
| Flow.ClauseIsAsked | mksc/src/vm.c:744-770 | The condition of a clause is evaluated with the exception still pending and the clause's parameter, the only local variable, bound to it; this and the owner are those of the code around it. |
| Flow.ClauseHandles | mksc/src/vm.c:772-780 | The block of a clause runs in such a frame with no exception pending. |
| Flow.RaisedIsCaught | mksc/src/vm.c:744-825 | Whatever value is raised, a clause without a condition finds it under its own name. |
| Hashtable.OneMoreKey | mksc/src/hash.c:116-173 | One more entry is one more key, and shifting leaves every other key's slots with it. |
| Hashtable.Table.SeekInsertPosition | mksc/src/hash.c:423-500 | Binary search: where the key is, or a position that separates the smaller keys from the larger ones. |
| Hashtable.Table.FindPosition | mksc/src/hash.c:347-420 | The position of the key, or -1 iff it is absent. |
| Hashtable.Table.Insert | mksc/src/hash.c:116-173 | Sets the value of one key and changes no other; a key that was there keeps its extension slots; the handle denotes the entry. |
| Hashtable.Table.Remove | mksc/src/hash.c:194-247 | Removes one key and changes no other. |
| Hashtable.Table.Find | mksc/src/hash.c:250-289 | The value and handle of a key, or nothing iff it is absent. |
| Hashtable.Table.SetExtendValue | mksc/src/hash.c:292-301 | Sets one slot of the entry that the handle denotes. |
| Hashtable.Table.GetExtendValue | mksc/src/hash.c:304-315 | Reads one slot of the entry that the handle denotes. |
| Hashtable.Table.Keys | mksc/src/hash.c:318-344 | Enumeration visits every key once, in order. |
| Hashtable.Table.Extend | mksc/src/hash.c:503-523 | Growing changes no entry. |
| Symbols.StringsAreOrdered | mksc/src/hash.c:463-500 | strcmp is a strict total order, which binary search needs. |
| Symbols.FirstDifference | mksc/src/hash.c:463-500 | Names are ordered by the first character in which they differ, and a prefix comes first. |
| Symbols.MemoryPool.Allocate | mksc/src/node.c:28-55 | A 4-aligned pointer to a copy of the bytes, in memory given to no other pointer; the bytes behind earlier pointers stay. |
| Symbols.SymbolTable.GetSymbolNamePtr | mksc/src/node.c:10-26 | A known name gets the pointer it has, a new one a pointer that no other name has. |
| Symbols.SymbolTable.OnePointerPerName | mksc/src/node.c:10-26 | Two names have the same pointer iff they are equal. |
| Symbols.SymbolTable.GetAll | mksc/src/node.c:10-55 | Over any sequence of names, pointers are equal iff the names are, and at the end all names are still behind their pointers. |
| Classes.NoCycle | mksc/src/compile.c:85-108 | No class is its own superclass, however far up. |
| Classes.LastHasNoSuper | mksc/src/compile.c:85-108 | The walk toward superclasses ends, and only its last class has none. |
| Classes.Registry.Register | mksc/src/compile.c:85-108 | A class is registered iff its name is new and its superclass, if named, is there; ranks of earlier classes stay. |
| Classes.Registry.FindOperatorMethod | mksc/src/vm.c:1023-1047 | The walk ends and returns the most derived definition of the operator, or nothing. |
| Objects.New | mksc/src/classObject.c:197-268 | One item per class from most derived to base, as far as the first value class, each with its fields and methods, a method bound to the item. |
| Objects.MembersStart | mksc/src/classObject.c:197-268 | In a new object a field starts with its declared number and a method bound to the part of its class, and a part has no other members; the last part has "super" unless it is of class Object. |
| Objects.LinksAreInverse | mksc/src/classObject.c:225-266 | "super" and child of neighbouring items are inverse to each other, in both directions. |
| Objects.FindVariable | mksc/src/vm.c:1138-1229 | The first value of the member that is not null, from the given part on. |
| Objects.ReadBack | mksc/src/vm.c:1138-1229 | Parts without the member, and parts in which it is null, are passed by, and the value in the next one is read. |
| Objects.FindVariableReference | mksc/src/vm.c:1086-1136 | The table of the first part that has the member. |
| Objects.Store | mksc/src/classReference.c:69-98 | A write through a reference changes the entry of that name in that table, and nothing else. |
| Objects.StoredIsRead | mksc/src/vm.c:1086-1229 | What was written is read back from the same part, and every other member reads as before from every part. |
| Strings.EscapedDecodes | mksc/src/string_parser.c:114-277 | Decoding the escaped form of any text without NUL and 0xFF gives that text, and reading stops at its quote. |
| Strings.EscapesDenote | mksc/src/string_parser.c:230-258 | Backslash with n, r, t, a quote or a backslash stands for that character, and with any other for a percent sign. |
| Strings.PercentSigns | mksc/src/string_parser.c:129-229 | A percent sign is written twice; before a parenthesis it begins a format, before a quote it ends the literal, and before any other character it is dropped with that. |
| Strings.WritableTexts | mksc/src/string_parser.c:114-277 | The texts that literals stand for are exactly those without NUL and 0xFF. |
| Strings.StringBuffer.Push | mksc/src/string_parser.c:67-86 | Appends one character to the text in the chunks of 16, all full but the last. |
| Strings.StringBuffer.Commit | mksc/src/string_parser.c:41-65 | One array that holds exactly the pushed characters and a NUL, filled from its end. |
| Strings.Turn | mksc/src/string_parser.c:115-277 | One turn of the character loop keeps what has been read and what is still to be read together equal to the literal. |
| Strings.ParseString | mksc/src/string_parser.c:101-306 | The compiled literal is the decoded text, and reading stops behind its quote or its first format; a text without characters has no value. |
| Tagged.ReadsBack | mksc/src/node.c:284-382 | Every 32-bit integer but the least reads back from its word or item; the least reads back as 0. |
| Tagged.TruthIsNotZero | mksc/src/node.c:249-272 | An integer is true iff it is not 0, save the least, which is false. |
| Tagged.WordsAreCanonical | mksc/src/node.c:284-304 | Two integers have the same word iff they are equal. |
| Tagged.WordsMade | mksc/src/node.c:284-304 | The words that integers have are those with the direct bit set and a size below 2^26. |
| Tagged.EqualEqualIsEquality | mksc/src/classObject.c:272-342 | == on integers is integer equality across words and items, except exactly when the word of the least integer meets an item with 0 or the least. |
| Tagged.Layout | mksc/src/node.c:284-304 | An integer of size below 2^26 is the word with bit 0 set, its size from bit 1 on and bit 31 for minus; others but the least get an item. |
| Tagged.ReadsWhatWasMade | mksc/src/node.c:284-382 | The integer that scripts see is the one the evaluator computes with. |

## Left out

Weaker than the code's own promise, or narrower than it:

- Exactness.MarkedIffReachable: exact only under its guard, because the code loses reachable objects without it; Jumps.MarkedIffJumpedTo says exactly what is marked when one table of members is referred to, and the guard is proved necessary on the heaps of LostParts.
- Jumps.MarkedIffJumpedTo: the reference is on the operand stack or the last result of the current frame and is come to before the table's own part, and no reachable reference leads to other members; of heaps where references lead to several tables of members only OnlyReachableMarked speaks.
- Jumps.CompleteIffSupersMarked: its condition is on the marks; one on the heap before the scan is given when the reference is in a root cell, by CompleteIffSupersReached and CompleteThroughPart.
- Collection.FreedExactly: under the guard of MarkedIffReachable, for the same reason; so are CollectGuarded and CollectTwice.
- Collection.CollectTwice: free slots that can be reached point at nothing (FreeIsEmpty). Freeing empties items, tables and vectors; a freed frame keeps its fields, and of a second collection that reaches such a frame nothing is claimed.
- Executor.Vm.ExecuteExpr: fuel stands for the measured depth of the C stack, and a run that exhausts it ends there. A run ends as undefined, and the model says no more of it, when a method is called by name while "this" is not the object of the script.
- Executor.Vm.ExecuteCall: a code value whose owner frame has no locals makes vm.c follow a null pointer in the lookup of a call; the model finds nothing there.
- OperandStack.Stack.Push: the configured extension of the C stack is 0 cells, so that a push on a full stack writes behind its end; the model takes a positive extension.
- OperandStack.Stack.Pop: the code takes a word with bits 24, 26 and 27 set (0x0d000000) and bit 0 clear for the address of a value and follows it (`mksc/include/vm_stack.h:62-64`, and `mksc/include/vm_stack.h:77-79` for At); the model gives back what was pushed.
- Objects.New: a default expression that fails ends the construction in the code; here members are given as values and methods, so that construction always succeeds.
- Depth.SurplusIsLeft: for calls whose arguments and body are clean themselves; of others Evaluator.Invoke says what they leave.
- Hashtable.Table.Insert: the extension slots of a new key hold what its cell held before, as in the code; growth by 0 cells is excluded, and keys fit the comparison (64-bit keys narrowed to int are not modelled).
- Symbols.SymbolTable.GetSymbolNamePtr: names of 2048 bytes and more are excluded; the code inserts a null key for them.
- Slots.Pool.AllocateVector: no count of free slots is claimed, because the code keeps none.
- Control.CatchMayLeave: by one script for each result code.
- Calls.MissingArgumentThrows: as long as the defaults end normally where they are evaluated; with one that throws or runs out of depth, Calls.DefaultsStop says where the evaluation stops.
- Calls.PushedInOrder: on tidy scripts; on others an expression may leave more than its value, and Executor.Vm.PushParameters says what is pushed.
- Depth.StillRowPasses: of other calls RowPassesIffCovered speaks, whose condition is on the variables at each call.

Not modelled:

- In expressions: blocks, braces and code parameters as operands, `@` and `@@` members, `new`, `me` and `super`, floats, formats in strings, integer literals beyond 31 bits, and the loop for trailing `if` and the statement forms around an expression. A string or character literal is one opaque operand.
- Character-level lexing outside string literals; the look-ahead of the lexer while it is inside one.
- Error messages; an internal error is a new error object that becomes the exception.
- Modules and `using`, whose entries are tagged slot pointers; access modifiers and FINAL flags; class methods found on value items; default expressions of members, which are given as values. The Object item that `super` makes for an integer, a string or another value (`mksc/src/vm.c:1360-1373`): it is a part whose child is no part, and no "super" entry leads back to it.
- In the executor: floats, strings, arrays, member access, `super`, `new` and `me`, variable arguments, `return` without expression, and collections between two statements. Frames are a table indexed by number. A method that runs no expression returns an unspecified value, the script itself 0. Integer overflow wraps, division by zero gives 0, and the right operand of an arithmetic operator counts as 0 when it is not an integer; vm.c follows a null pointer there when it is an object without an integer part (`mksc/src/node.c:367-378`), as it does when the left operand of an operator is the null pointer (`mksc/src/vm.c:656-681`).
- In the collector: the two bits "allocated" and "new" are held per block rather than in each object, what an allocator writes into a fresh slot, a flag word with a clear mark bit included, is left to its caller, and the four sweep functions are one method over the list of pools. A freed frame keeps its fields.
- Destroying trees and freeing memory; files, the console, streams, dumping and profiling.
