/**
  The field of 1024 elements that the Bech32 generator is chosen from (src/bech32.cpp:49-87), as
  polynomials of ten bits in the inverse of the primitive element named there. All that is needed of
  it is multiplication by that inverse, which turns the elements other than zero around one cycle of
  length 1023.
 */
module Bech32Field {

  import L = Limbs

  type Field = bv10

  function Add(x: Field, y: Field): Field { x ^ y }

  lemma AddZero(x: Field)
    ensures Add(x, x) == 0 && Add(x, 0) == x && Add(0, x) == x
  {
  }

  lemma AddSame(x: Field, y: Field)
    requires Add(x, y) == 0
    ensures x == y
  {
  }

  lemma Commute(x: Field, y: Field)
    ensures Add(x, y) == Add(y, x)
  {
  }

  lemma Associate(x: Field, y: Field, z: Field)
    ensures Add(Add(x, y), z) == Add(x, Add(y, z))
  {
  }

  lemma AddPairs(a: Field, b: Field, c: Field, d: Field)
    ensures Add(Add(a, b), Add(c, d)) == Add(Add(a, c), Add(b, d))
  {
    hide Add;
    Associate(a, b, Add(c, d));
    Associate(b, c, d);
    Commute(b, c);
    Associate(c, b, d);
    Associate(a, c, Add(b, d));
  }

  // ---------- turning ----------

  /** Multiplication by the chosen element. */
  function Turned(x: Field): Field { Add(Shift(x), Pick(x, 0x200, 0x123)) }

  function Shift(x: Field): Field { x << 1 }

  function Pick(x: Field, bit: Field, m: Field): Field { if x & bit != 0 then m else 0 }

  function Turn(n: nat, x: Field): Field { if n == 0 then x else Turned(Turn(n - 1, x)) }

  lemma PartsAdd(x: Field, y: Field)
    ensures Shift(Add(x, y)) == Add(Shift(x), Shift(y))
    ensures Pick(Add(x, y), 0x200, 0x123) == Add(Pick(x, 0x200, 0x123), Pick(y, 0x200, 0x123))
  {
  }

  lemma TurnedAdd(x: Field, y: Field)
    ensures Turned(Add(x, y)) == Add(Turned(x), Turned(y))
  {
    PartsAdd(x, y);
    hide Add, Shift, Pick;
    AddPairs(Shift(x), Shift(y), Pick(x, 0x200, 0x123), Pick(y, 0x200, 0x123));
  }

  lemma TurnedZero(x: Field)
    ensures Turned(x) == 0 <==> x == 0
  {
  }

  lemma {:induction false} TurnAdd(n: nat, x: Field, y: Field)
    ensures Turn(n, Add(x, y)) == Add(Turn(n, x), Turn(n, y))
  {
    hide Turned, Add;
    if n > 0 {
      TurnAdd(n - 1, x, y);
      TurnedAdd(Turn(n - 1, x), Turn(n - 1, y));
    }
  }

  lemma {:induction false} TurnZero(n: nat, x: Field)
    ensures Turn(n, x) == 0 <==> x == 0
  {
    hide Turned;
    if n > 0 {
      TurnZero(n - 1, x);
      TurnedZero(Turn(n - 1, x));
    }
  }

  lemma TurnInjective(n: nat, x: Field, y: Field)
    requires Turn(n, x) == Turn(n, y)
    ensures x == y
  {
    TurnAdd(n, x, y);
    AddZero(Turn(n, x));
    TurnZero(n, Add(x, y));
    hide Add, Turn;
    AddSame(x, y);
  }

  lemma {:induction false} TurnTurn(a: nat, b: nat, x: Field)
    ensures Turn(a + b, x) == Turn(a, Turn(b, x))
  {
    hide Turned;
    if a > 0 { TurnTurn(a - 1, b, x); }
  }

  // ---------- turning many times at once ----------

  function Low(x: Field, c0: Field, c1: Field, c2: Field, c3: Field, c4: Field): Field {
    Add(Add(Add(Pick(x, 1, c0), Pick(x, 2, c1)), Add(Pick(x, 4, c2), Pick(x, 8, c3))), Pick(x, 16, c4))
  }

  function High(x: Field, c0: Field, c1: Field, c2: Field, c3: Field, c4: Field): Field {
    Add(Add(Add(Pick(x, 32, c0), Pick(x, 64, c1)), Add(Pick(x, 128, c2), Pick(x, 256, c3))), Pick(x, 512, c4))
  }

  /** The product of two elements. */
  function Mul(x: Field, c: Field): Field {
    var c1 := Turned(c);
    var c2 := Turned(c1);
    var c3 := Turned(c2);
    var c4 := Turned(c3);
    var c5 := Turned(c4);
    var c6 := Turned(c5);
    var c7 := Turned(c6);
    var c8 := Turned(c7);
    var c9 := Turned(c8);
    Add(Low(x, c, c1, c2, c3, c4), High(x, c5, c6, c7, c8, c9))
  }

  lemma MulOne(x: Field)
    ensures Mul(x, 1) == x
  {
  }

  lemma TurnedPick(x: Field, bit: Field, m: Field)
    ensures Turned(Pick(x, bit, m)) == Pick(x, bit, Turned(m))
  {
  }

  lemma TurnedFive(a: Field, b: Field, c: Field, d: Field, e: Field)
    ensures Turned(Add(Add(Add(a, b), Add(c, d)), e))
         == Add(Add(Add(Turned(a), Turned(b)), Add(Turned(c), Turned(d))), Turned(e))
  {
    hide Turned, Add;
    TurnedAdd(Add(Add(a, b), Add(c, d)), e);
    TurnedAdd(Add(a, b), Add(c, d));
    TurnedAdd(a, b);
    TurnedAdd(c, d);
  }

  lemma TurnedLow(x: Field, a: Field, b: Field, c: Field, d: Field, e: Field)
    ensures Turned(Low(x, a, b, c, d, e)) == Low(x, Turned(a), Turned(b), Turned(c), Turned(d), Turned(e))
  {
    hide Turned, Add, Pick;
    TurnedFive(Pick(x, 1, a), Pick(x, 2, b), Pick(x, 4, c), Pick(x, 8, d), Pick(x, 16, e));
    TurnedPick(x, 1, a);
    TurnedPick(x, 2, b);
    TurnedPick(x, 4, c);
    TurnedPick(x, 8, d);
    TurnedPick(x, 16, e);
  }

  lemma TurnedHigh(x: Field, a: Field, b: Field, c: Field, d: Field, e: Field)
    ensures Turned(High(x, a, b, c, d, e)) == High(x, Turned(a), Turned(b), Turned(c), Turned(d), Turned(e))
  {
    hide Turned, Add, Pick;
    TurnedFive(Pick(x, 32, a), Pick(x, 64, b), Pick(x, 128, c), Pick(x, 256, d), Pick(x, 512, e));
    TurnedPick(x, 32, a);
    TurnedPick(x, 64, b);
    TurnedPick(x, 128, c);
    TurnedPick(x, 256, d);
    TurnedPick(x, 512, e);
  }

  lemma TurnedMul(x: Field, c: Field)
    ensures Turned(Mul(x, c)) == Mul(x, Turned(c))
  {
    hide Turned, Add, Low, High;
    var c1 := Turned(c);
    var c2 := Turned(c1);
    var c3 := Turned(c2);
    var c4 := Turned(c3);
    var c5 := Turned(c4);
    var c6 := Turned(c5);
    var c7 := Turned(c6);
    var c8 := Turned(c7);
    var c9 := Turned(c8);
    TurnedLow(x, c, c1, c2, c3, c4);
    TurnedHigh(x, c5, c6, c7, c8, c9);
    TurnedAdd(Low(x, c, c1, c2, c3, c4), High(x, c5, c6, c7, c8, c9));
  }

  /** Turning `n` times is multiplying by the `n`-th power. */
  lemma {:induction false} TurnIsMul(n: nat, x: Field)
    ensures Turn(n, x) == Mul(x, Turn(n, 1))
  {
    hide Turned, Mul;
    if n == 0 {
      MulOne(x);
    } else {
      TurnIsMul(n - 1, x);
      TurnedMul(x, Turn(n - 1, 1));
    }
  }

  predicate Power(n: nat, x: Field) { Turn(n, 1) == x }

  lemma PowerSum(a: nat, b: nat, x: Field, y: Field)
    requires Power(a, x) && Power(b, y)
    ensures Power(a + b, Mul(y, x))
  {
    TurnTurn(a, b, 1);
    TurnIsMul(a, y);
    hide Turn, Mul;
  }

  lemma FirstPower()
    ensures Power(1, 2)
  {
  }

  lemma Products()
    ensures Mul(0x2, 0x2) == 0x4
    ensures Mul(0x4, 0x4) == 0x10
    ensures Mul(0x10, 0x10) == 0x100
    ensures Mul(0x100, 0x100) == 0x119
    ensures Mul(0x100, 0x119) == 0x3f0
    ensures Mul(0x2, 0x3f0) == 0x2c3
    ensures Mul(0x4, 0x3f0) == 0xa5
    ensures Mul(0x2, 0xa5) == 0x14a
    ensures Mul(0x10, 0x14a) == 0x2c
  {
  }

  lemma MoreProducts()
    ensures Mul(0x4, 0x2c) == 0xb0
    ensures Mul(0x2c, 0x2c) == 0x173
    ensures Mul(0x2c, 0x173) == 0x36a
    ensures Mul(0x173, 0x173) == 0x90
    ensures Mul(0x90, 0x90) == 0x29f
    ensures Mul(0x36a, 0x29f) == 0x36
    ensures Mul(0x36, 0x36) == 0x37
    ensures Mul(0x36, 0x37) == 0x1
  {
  }

  lemma Powers()
    ensures Power(2, 4) && Power(24, 0x3f0) && Power(25, 0x2c3) && Power(26, 0xa5) && Power(31, 0x2c)
  {
    FirstPower();
    Products();
    hide Power, Mul;
    PowerSum(1, 1, 0x2, 0x2);
    PowerSum(2, 2, 0x4, 0x4);
    PowerSum(4, 4, 0x10, 0x10);
    PowerSum(8, 8, 0x100, 0x100);
    PowerSum(16, 8, 0x119, 0x100);
    PowerSum(24, 1, 0x3f0, 0x2);
    PowerSum(24, 2, 0x3f0, 0x4);
    PowerSum(26, 1, 0xa5, 0x2);
    PowerSum(27, 4, 0x14a, 0x10);
  }

  lemma MorePowers()
    ensures Power(33, 0xb0) && Power(93, 0x36a) && Power(341, 0x36) && Power(1023, 1)
  {
    Powers();
    MoreProducts();
    hide Power, Mul;
    PowerSum(31, 2, 0x2c, 0x4);
    PowerSum(31, 31, 0x2c, 0x2c);
    PowerSum(62, 31, 0x173, 0x2c);
    PowerSum(62, 62, 0x173, 0x173);
    PowerSum(124, 124, 0x90, 0x90);
    PowerSum(248, 93, 0x29f, 0x36a);
    PowerSum(341, 341, 0x36, 0x36);
    PowerSum(682, 341, 0x37, 0x36);
  }

  /** Turning `n` times, with the power at hand. */
  lemma TurnBy(n: nat, c: Field, x: Field)
    requires Power(n, c)
    ensures Turn(n, x) == Mul(x, c)
  {
    TurnIsMul(n, x);
    hide Turn, Mul;
  }

  // ---------- the order of the chosen element ----------

  predicate Fixed(n: nat, x: Field) { Turn(n, x) == x }

  lemma FixedLess(a: nat, b: nat, x: Field)
    requires b <= a && Fixed(a, x) && Fixed(b, x)
    ensures Fixed(a - b, x)
  {
    TurnTurn(a - b, b, x);
  }

  lemma {:induction false} FixedTimes(a: nat, t: nat, x: Field)
    requires Fixed(a, x)
    ensures Fixed(a * t, x)
  {
    hide Turned;
    if t > 0 {
      FixedTimes(a, t - 1, x);
      assert a * t == a + a * (t - 1);
      TurnTurn(a, a * (t - 1), x);
    }
  }

  lemma Divides(a: nat, b: nat, g: nat)
    requires g > 0 && a % g == 0 && b % g == 0
    ensures (a + b) % g == 0
  {
    L.DivModIs(a + b, g, a / g + b / g, 0) by { assert a + b == g * (a / g) + g * (b / g); }
  }

  /** An element that two numbers of turns leave alone is left alone by their greatest common divisor. */
  lemma {:induction false} Common(a: nat, b: nat, x: Field) returns (g: nat)
    requires a > 0 && b > 0 && Fixed(a, x) && Fixed(b, x)
    ensures g > 0 && g <= a && a % g == 0 && b % g == 0 && Fixed(g, x)
    decreases a + b
  {
    hide Fixed;
    if a == b {
      g := a;
    } else if a < b {
      FixedLess(b, a, x);
      g := Common(a, b - a, x);
      Divides(a, b - a, g);
    } else {
      FixedLess(a, b, x);
      g := Common(a - b, b, x);
      Divides(a - b, b, g);
    }
  }

  /** A proper divisor of 3 * 11 * 31 divides the product of two of these. */
  lemma Divisors(g: nat, q: nat)
    requires g * q == 1023 && q > 1
    ensures 341 % g == 0 || 93 % g == 0 || 33 % g == 0
  {
    if g > 31 {
      SmallFactor(q, g);
      assert q == 3 || q == 11 || q == 31;
    } else {
      SmallFactor(g, q);
    }
  }

  lemma Product(g: nat, q: nat)
    requires g >= 32 && q >= 32
    ensures g * q >= 1024
  {
    assert g * q == g * (q - 32) + 32 * g;
  }

  lemma SmallFactor(g: nat, q: nat)
    requires g * q == 1023 && (g <= 31 || q >= 32)
    ensures g == 1 || g == 3 || g == 11 || g == 31
  {
    if g >= 32 { Product(g, q); }
    assert g != 0;
    if g == 2 {} else if g == 4 {} else if g == 5 {} else if g == 6 {} else if g == 7 {} else if g == 8 {}
    else if g == 9 {} else if g == 10 {} else if g == 12 {} else if g == 13 {} else if g == 14 {} else if g == 15 {}
    else if g == 16 {} else if g == 17 {} else if g == 18 {} else if g == 19 {} else if g == 20 {} else if g == 21 {}
    else if g == 22 {} else if g == 23 {} else if g == 24 {} else if g == 25 {} else if g == 26 {} else if g == 27 {}
    else if g == 28 {} else if g == 29 {} else if g == 30 {}
  }

  lemma NotFixedBy33(x: Field)
    requires Mul(x, 0xb0) == x
    ensures x == 0
  {
    assert Add(Low(x, 0xb0, 0x160, 0x2c0, 0xa3, 0x146), High(x, 0x28c, 0x3b, 0x76, 0xec, 0x1d8)) == x;
  }

  lemma NotFixedBy93(x: Field)
    requires Mul(x, 0x36a) == x
    ensures x == 0
  {
    assert Add(Low(x, 0x36a, 0x3f7, 0x2cd, 0xb9, 0x172), High(x, 0x2e4, 0xeb, 0x1d6, 0x3ac, 0x27b)) == x;
  }

  lemma NotFixedBy341(x: Field)
    requires Mul(x, 0x36) == x
    ensures x == 0
  {
    assert Add(Low(x, 0x36, 0x6c, 0xd8, 0x1b0, 0x360), High(x, 0x3e3, 0x2e5, 0xe9, 0x1d2, 0x3a4)) == x;
  }

  /** Fewer than 1023 turns leave no element but zero alone. */
  lemma OnlyZero(d: nat, x: Field)
    requires 0 < d < 1023 && Fixed(d, x)
    ensures x == 0
  {
    FullTurn(x);
    var g := Common(d, 1023, x);
    hide Fixed;
    DivModExact(1023, g);
    Divisors(g, 1023 / g);
    if 341 % g == 0 {
      Multiple(g, 341, x);
    } else if 93 % g == 0 {
      Multiple(g, 93, x);
    } else {
      Multiple(g, 33, x);
    }
    ProperTurn(x);
  }

  lemma FullTurn(x: Field)
    ensures Fixed(1023, x)
  {
    MorePowers();
    TurnBy(1023, 1, x);
    hide Turn, Power, Mul;
    MulOne(x);
  }

  lemma ProperTurn(x: Field)
    requires Fixed(341, x) || Fixed(93, x) || Fixed(33, x)
    ensures x == 0
  {
    MorePowers();
    hide Turn, Mul, Power;
    TurnBy(341, 0x36, x);
    TurnBy(93, 0x36a, x);
    TurnBy(33, 0xb0, x);
    if Fixed(341, x) { NotFixedBy341(x); } else if Fixed(93, x) { NotFixedBy93(x); } else { NotFixedBy33(x); }
  }

  lemma Multiple(g: nat, n: nat, x: Field)
    requires g > 0 && n % g == 0 && Fixed(g, x)
    ensures Fixed(n, x)
  {
    hide Fixed;
    DivModExact(n, g);
    FixedTimes(g, n / g, x);
  }

  lemma DivModExact(n: nat, g: nat)
    requires g > 0 && n % g == 0
    ensures g * (n / g) == n
  {
  }
}
