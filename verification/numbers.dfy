/** What the operators compute: the laws of 32-bit arithmetic, comparison and logic. */
module Numbers {
  import opened Script

  predicate Fits(n: int) {
    -0x8000_0000 < n < 0x8000_0000
  }

  /** The result of an operator on two integers. */
  function Result(op: Op, a: int, b: int): (v: Value)
    ensures Apply(op, Int(a), Int(b)) == [v] && v.Int?
  {
    Apply(op, Int(a), Int(b))[0]
  }

  // ----- sums and products -----

  lemma MadeOfSmall(n: int)
    requires Fits(n)
    ensures Made(n) == n
  {
  }

  /** Adding what was taken away gives back what was there, and 0 takes nothing away. */
  lemma AddThenTakeAway(a: int, b: int)
    requires Fits(a) && Fits(b) && Fits(a - b)
    ensures Result(Plus, Result(Minus, a, b).n, b) == Int(a)
    ensures Result(Minus, a, 0) == Int(a) && Result(Minus, a, a) == Int(0)
  {
  }

  /** Addition starts at its left operand and goes up by one with its right one, and so does not care
      about their order. */
  lemma SumsGoUp(a: int, b: int)
    requires Fits(a) && Fits(b) && Fits(a + b) && Fits(a + b + 1) && Fits(b + 1)
    ensures Result(Plus, a, 0) == Int(a) && Result(Plus, a, b + 1).n == Result(Plus, a, b).n + 1
    ensures Result(Plus, a, b) == Result(Plus, b, a)
  {
    MadeOfSmall(a + b);
    MadeOfSmall(a + b + 1);
  }

  /** Multiplication by 0 is 0, and goes up by the left operand with the right one. */
  lemma ProductsGoUp(a: int, b: int)
    requires Fits(a) && Fits(b) && Fits(a * b) && Fits(a * b + a)
    ensures Result(Times, a, 0) == Int(0)
    ensures Result(Times, a, b + 1) == Result(Plus, Result(Times, a, b).n, a)
    ensures Result(Times, a, b) == Result(Times, b, a)
  {
    MadeOfSmall(a * b);
    assert a * (b + 1) == a * b + a;
    assert a * b == b * a;
  }

  /** Out of range, results wrap around; the least integer is 0. */
  lemma SumsWrap(op: Op, a: int, b: int)
    requires op.Plus? || op.Minus? || op.Times?
    ensures var (exact, n) := (if op.Plus? then a + b else if op.Minus? then a - b else a * b, Result(op, a, b).n);
      && Fits(n)
      && ((n - exact) % 0x1_0000_0000 == 0 || (n == 0 && (exact - 0x8000_0000) % 0x1_0000_0000 == 0))
  {
  }

  // ----- division -----

  lemma Divided(l: nat, r: nat)
    requires r > 0
    ensures l == r * (l / r) + l % r && l % r < r && l / r >= 0
  {
  }

  lemma SmallQuotient(l: nat, r: nat)
    requires r > 0
    ensures 0 <= l / r <= l
  {
    Divided(l, r);
    var k: nat := l / r;
    LargerTimes(k, r);
  }

  lemma {:induction false} LargerTimes(k: nat, r: nat)
    requires r > 0
    ensures r * k >= k
  {
    if r > 1 {
      LargerTimes(k, r - 1);
      assert r * k == (r - 1) * k + k;
    }
  }

  lemma SignedProduct(r: int, y: int, k: int, negative: bool)
    requires y == if r < 0 then -r else r
    ensures r * (if negative == (r < 0) then k else -k) == if negative then -(y * k) else y * k
  {
    if r < 0 {
      assert r * k == -(y * k) && r * -k == y * k;
    } else {
      assert r * -k == -(y * k);
    }
  }

  lemma RemainderIs(l: int, r: int)
    requires r != 0
    ensures var e: int := Magnitude(l) % Magnitude(r);
      l - r * Quotient(l, r) == (if l < 0 then -e else e) && 0 <= e < Magnitude(r)
  {
    var x, y := Magnitude(l), Magnitude(r);
    Divided(x, y);
    SignedProduct(r, y, x / y, l < 0);
  }

  lemma QuotientFits(l: int, r: int)
    requires Fits(l) && r != 0
    ensures Fits(Quotient(l, r))
  {
    SmallQuotient(Magnitude(l), Magnitude(r));
  }

  /** Division rounds toward zero: quotient and remainder give the dividend back, and the remainder is
      smaller than the divisor and has the sign of the dividend. Division by 0 gives 0. */
  lemma QuotientAndRemainder(l: int, r: int)
    requires Fits(l) && Fits(r)
    ensures var (q, m) := (Result(Over, l, r).n, Result(Modulo, l, r).n);
      if r == 0 then q == 0 && m == 0
      else
        && l == q * r + m && (if m < 0 then -m else m) < (if r < 0 then -r else r)
        && (m == 0 || (m < 0 <==> l < 0))
  {
    if r != 0 {
      RemainderIs(l, r);
      QuotientFits(l, r);
      MadeOfSmall(Quotient(l, r));
      MadeOfSmall(Remainder(l, r));
      assert r * Quotient(l, r) == Quotient(l, r) * r;
    }
  }

  // ----- order -----

  /** One integer is below another iff their difference is positive, and the other comparisons follow. */
  lemma OrderIsBySubtraction(a: int, b: int)
    requires Fits(a) && Fits(b) && Fits(b - a)
    ensures Truth(Result(Less, a, b)) <==> Result(Minus, b, a).n > 0
    ensures Result(Greater, a, b) == Result(Less, b, a)
    ensures Truth(Result(AtMost, a, b)) <==> !Truth(Result(Greater, a, b))
    ensures Truth(Result(AtLeast, a, b)) <==> !Truth(Result(Less, a, b))
    ensures Truth(Result(Equal, a, b)) <==> Result(Minus, b, a).n == 0
    ensures Truth(Result(NotEqual, a, b)) <==> !Truth(Result(Equal, a, b))
  {
  }

  /** Comparisons of any two integers are as of the integers, and give 1 or 0. */
  lemma Comparisons(op: Op, a: int, b: int)
    requires op.Less? || op.Greater? || op.AtMost? || op.AtLeast? || op.Equal? || op.NotEqual?
    ensures Result(op, a, b) == Int(1) || Result(op, a, b) == Int(0)
    ensures Result(op, a, b).n + Result(Opposite(op), a, b).n == 1
    ensures a == b ==> (Result(op, a, b) == Int(1) <==> op.AtMost? || op.AtLeast? || op.Equal?)
    ensures a < b ==> (Result(op, a, b) == Int(1) <==> op.Less? || op.AtMost? || op.NotEqual?)
  {
  }

  function Opposite(op: Op): Op {
    match op
    case Less => AtLeast
    case AtLeast => Less
    case Greater => AtMost
    case AtMost => Greater
    case Equal => NotEqual
    case NotEqual => Equal
    case _ => op
  }

  // ----- truth -----

  /** 0 and the null pointer are false, and everything else is true. */
  lemma FalseValues(v: Value)
    ensures !Truth(v) <==> v == Int(0) || v == Nothing
  {
  }

  /** && is the product and || the sum of truth, each worth 1 or 0, on values of any kind. */
  lemma LogicIsArithmetic(v: Value, w: Value)
    ensures var (t, u) := (if v == Int(0) || v == Nothing then 0 else 1, if w == Int(0) || w == Nothing then 0 else 1);
      && Apply(And, v, w) == [Int(t * u)] && Apply(Or, v, w) == [Int(if t + u > 0 then 1 else 0)]
  {
  }

  /** Integers are equal by value, objects when they are one object, and nothing else is equal. */
  lemma EqualValues(v: Value, w: Value)
    ensures Apply(Equal, v, w) == [Int(if v == w && (v.Int? || v.Object?) then 1 else 0)]
    ensures Apply(NotEqual, v, w) == [Int(if v == w && (v.Int? || v.Object?) then 0 else 1)]
  {
  }

  /** Only integers have the other operators; a right operand of another kind counts as 0. */
  lemma OtherOperands(op: Op, v: Value, w: Value)
    requires !op.And? && !op.Or? && !op.Equal? && !op.NotEqual?
    ensures Apply(op, v, w) == [] <==> !v.Int?
    ensures v.Int? && !w.Int? ==> Apply(op, v, w) == Apply(op, v, Int(0))
  {
  }
}
