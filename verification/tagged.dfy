/** Integers as the machine holds them: small ones inside the pointer word, the others in an item.
    Words and integers are 32 bits wide; a mask or a shift of one field is a remainder or a product. */
module Tagged {
  import Script

  const MODULUS := 0x1_0000_0000

  /** Bit 31, the sign of a direct value. Bit 0 marks a direct value, bits 1 to 30 hold its size. */
  const MINUS := 0x8000_0000

  /** Integers of this size and more get an item. */
  const BOXED := 0x400_0000

  const LEAST := -0x8000_0000

  type Int32 = n: int | LEAST <= n < MINUS
  type Word = n: int | 0 <= n < MODULUS

  /** What the stack holds: a word with the direct bit set, no item at all, or a pointer to an item. */
  datatype Item = Direct(word: Word) | Null | Int(value: Int32) | Text(text: string) | Nil

  /** The least integer has no opposite and is its own size. */
  function Abs(v: Int32): Int32 {
    if v < 0 && v != LEAST then -v else v
  }

  /** Sets bit 31. */
  function WithMinus(w: Word): Word {
    if w < MINUS then w + MINUS else w
  }

  /** The size is compared as a signed integer, so that the least integer counts as small. */
  function Create(value: Int32): Item {
    if Abs(value) < BOXED then
      var word: Word := Abs(value) * 2 % MODULUS + 1;
      Direct(if value < 0 then WithMinus(word) else word)
    else Int(value)
  }

  /** Bits 1 to 30. */
  function Size(word: Word): (r: int)
    ensures 0 <= r < 0x4000_0000
  {
    word % MINUS / 2
  }

  function FromWord(word: Word): Int32 {
    if word >= MINUS then -Size(word) else Size(word)
  }

  function ToInt(target: Item): Int32 {
    match target
    case Direct(word) => FromWord(word)
    case Int(value) => value
    case _ => 0
  }

  predicate IsTrue(target: Item)
    requires !target.Null?
  {
    match target
    case Direct(word) => Size(word) != 0
    case Nil => false
    case Int(value) => value != 0
    case _ => true
  }

  /** The operator "==". */
  predicate EqualEqual(left: Item, right: Item) {
    var (target, other) := if !left.Direct? && right.Direct? then (right, left) else (left, right);
    if target.Null? || other.Null? then target.Null? && other.Null?
    else if target.Direct? then
      if other.Direct? then target.word == other.word
      else other.Int? && ToInt(target) == ToInt(other)
    else match (target, other)
      case (Int(v), Int(w)) => v == w
      case (Text(s), Text(t)) => s == t
      case (Nil, Nil) => true
      case _ => false
  }

  /** The two forms of an integer. */
  predicate Stands(a: Item, v: Int32) {
    a == Create(v) || a == Int(v)
  }

  // ----- laws -----

  lemma ReadsBack(v: Int32)
    ensures ToInt(Create(v)) == if v == LEAST then 0 else v
  {
    if v == LEAST {
      assert Create(v) == Direct(MINUS + 1);
    } else if Abs(v) < BOXED {
      assert Size(2 * Abs(v) + 1) == Abs(v);
    }
  }

  lemma TruthIsNotZero(v: Int32)
    ensures IsTrue(Create(v)) <==> v != 0 && v != LEAST
  {
  }

  /** An integer has one word, and no other integer has it. */
  lemma WordsAreCanonical(v: Int32, w: Int32)
    ensures Create(v) == Create(w) <==> v == w
  {
    ReadsBack(v);
    ReadsBack(w);
  }

  /** The words that integers have are those with the direct bit set and a size below the limit. */
  lemma WordsMade(word: Word)
    ensures (exists v :: Create(v) == Direct(word)) <==> word % 2 == 1 && Size(word) < BOXED
  {
    if word == MINUS + 1 {
      assert Create(LEAST) == Direct(word);
    } else if word % 2 == 1 && Size(word) < BOXED {
      assert word == 2 * Size(word) + 1 + if word < MINUS then 0 else MINUS;
      assert Create(FromWord(word)) == Direct(word);
    }
  }

  /** The word of the least integer beside an item that holds 0 or the least integer. */
  predicate Misjudged(a: Item, b: Item) {
    a == Create(LEAST) && b.Int? && (b.value == 0 || b.value == LEAST)
  }

  /** "==" on two integers in either form says whether they are equal, except that the word of the
      least integer is taken for 0 beside an item. */
  lemma EqualEqualIsEquality(a: Item, v: Int32, b: Item, w: Int32)
    requires Stands(a, v) && Stands(b, w)
    ensures (EqualEqual(a, b) <==> v == w) <==> !Misjudged(a, b) && !Misjudged(b, a)
  {
    ReadsBack(v);
    ReadsBack(w);
    WordsAreCanonical(v, w);
    WordsAreCanonical(v, LEAST);
    WordsAreCanonical(w, LEAST);
  }

  /** On other items "==" is equality, of texts by their characters. */
  lemma EqualEqualOnOthers(a: Item, b: Item)
    requires !b.Direct? && !b.Int?
    ensures (EqualEqual(a, b) <==> a == b) && (EqualEqual(b, a) <==> a == b)
  {
  }

  /** The layout of a word, and which integers have one. */
  lemma Layout(v: Int32)
    ensures Create(v).Direct? <==> -0x400_0000 < v < 0x400_0000 || v == -0x8000_0000
    ensures 0 <= v < 0x400_0000 ==> Create(v) == Direct(2 * v + 1)
    ensures -0x400_0000 < v < 0 ==> Create(v) == Direct(0x8000_0000 - 2 * v + 1)
  {
  }

  /** The value that scripts see is the one the evaluator computes with. */
  lemma ReadsWhatWasMade(n: int)
    ensures ToInt(Create(Script.Wrap(n))) == Script.Made(n)
  {
    ReadsBack(Script.Wrap(n));
  }
}
