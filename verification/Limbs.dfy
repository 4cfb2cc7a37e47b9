/** Numbers as sequences of 32-bit limbs, least significant first, and the arithmetic they need. */
module Limbs {

  const BASE := 0x1_0000_0000

  type Limb = x: nat | x < BASE

  function Pow2(n: nat): (r: nat)
    ensures r >= 1
  {
    if n == 0 then 1 else 2 * Pow2(n - 1)
  }

  /** A number moved up by `e` bits, without a bound. */
  function Scale(x: int, e: nat): int { x * Pow2(e) }

  function Val(s: seq<Limb>): int {
    if s == [] then 0 else Val(s[..|s| - 1]) + Scale(s[|s| - 1], 32 * (|s| - 1))
  }

  // ---------- powers of two ----------

  lemma {:induction false} Pow2Add(a: nat, b: nat)
    ensures Pow2(a + b) == Pow2(a) * Pow2(b)
  {
    if b > 0 {
      Pow2Add(a, b - 1);
      assert Pow2(a + b) == 2 * Pow2(a + (b - 1));
      assert 2 * (Pow2(a) * Pow2(b - 1)) == Pow2(a) * (2 * Pow2(b - 1));
    }
  }

  lemma {:induction false} Pow2Up(a: nat, b: nat)
    requires a <= b
    ensures Pow2(a) <= Pow2(b)
  {
    if a < b { Pow2Up(a, b - 1); }
  }

  lemma Pow2Less(a: nat, b: nat)
    requires a < b
    ensures 2 * Pow2(a) <= Pow2(b)
  {
    Pow2Up(a + 1, b);
  }

  lemma Pow2Of32()
    ensures Pow2(8) == 0x100 && Pow2(16) == 0x1_0000 && Pow2(24) == 0x100_0000 && Pow2(32) == BASE
  {
    assert Pow2(8) == 256 by { assert Pow2(2) == 4; assert Pow2(4) == 16; assert Pow2(6) == 64; }
    Pow2Add(8, 8);
    Pow2Add(8, 16);
    Pow2Add(16, 16);
  }

  // ---------- moving up ----------

  lemma ScaleSum(x: int, y: int, e: nat)
    ensures Scale(x + y, e) == Scale(x, e) + Scale(y, e)
  {
    hide Pow2;
    assert (x + y) * Pow2(e) == x * Pow2(e) + y * Pow2(e);
  }

  lemma ScaleUp(x: int, y: int, e: nat)
    requires x <= y
    ensures Scale(x, e) <= Scale(y, e)
  {
    hide Pow2;
    MulUp(x, y, Pow2(e));
  }

  lemma MulUp(a: int, b: int, m: int)
    requires a <= b && m >= 0
    ensures a * m <= b * m
  {
  }

  lemma ScaleTwice(x: int, d: nat, e: nat)
    ensures Scale(Scale(x, d), e) == Scale(x, d + e)
  {
    Pow2Add(d, e);
    hide Pow2;
    assert (x * Pow2(d)) * Pow2(e) == x * (Pow2(d) * Pow2(e));
  }

  lemma ScaleOne(e: nat)
    ensures Scale(1, e) == Pow2(e) && Scale(0, e) == 0
  {
    hide Pow2;
  }

  lemma ScaleNone(x: int)
    ensures Scale(x, 0) == x
  {
  }

  lemma ScaleBase(x: int, e: nat)
    ensures Scale(x, 32 + e) == Scale(x * BASE, e)
  {
    Pow2Of32();
    ScaleTwice(x, 32, e);
  }

  lemma ScaleNonNegative(x: int, e: nat)
    requires x >= 0
    ensures Scale(x, e) >= 0
  {
    ScaleUp(0, x, e);
  }

  /** A number below two to the `d` moved up by `e` is at most two to the `d + e` less one unit. */
  lemma ScaleBelow(x: int, d: nat, e: nat)
    requires x < Pow2(d)
    ensures Scale(x, e) + Pow2(e) <= Pow2(d + e)
  {
    ScaleUp(x + 1, Pow2(d), e);
    ScaleSum(x, 1, e);
    ScaleOne(e);
    Pow2Add(d, e);
  }

  // ---------- division by hand ----------

  /** A quotient and remainder found in any way are the quotient and the remainder. */
  lemma DivModIs(x: int, m: nat, q: int, r: int)
    requires m > 0 && x == q * m + r && 0 <= r < m
    ensures x / m == q && x % m == r
  {
    var d := x / m - q;
    assert x == (x / m) * m + x % m;
    assert d * m == r - x % m by { assert d * m == (x / m) * m - q * m; }
    if d > 0 { MulUp(1, d, m); assert false; }
    if d < 0 { MulUp(d, -1, m); assert false; }
  }

  lemma ModIs(x: int, e: nat, q: int, r: int)
    requires x == Scale(q, e) + r && 0 <= r < Pow2(e)
    ensures x / Pow2(e) == q && x % Pow2(e) == r
  {
    hide Pow2;
    DivModIs(x, Pow2(e), q, r);
  }

  lemma ModOf(x: int, e: nat)
    ensures x == Scale(x / Pow2(e), e) + x % Pow2(e) && 0 <= x % Pow2(e) < Pow2(e)
  {
    hide Pow2;
  }

  lemma DivDown(x: nat, m: nat)
    requires m > 0
    ensures 0 <= x / m <= x
  {
    assert x == (x / m) * m + x % m;
    if x / m < 0 { MulUp(x / m, -1, m); }
    if x / m > x { MulUp(x + 1, x / m, m); MulUp(1, m, x + 1); }
  }

  // ---------- values ----------

  lemma ValTake(s: seq<Limb>, i: nat)
    requires i < |s|
    ensures Val(s[..i + 1]) == Val(s[..i]) + Scale(s[i], 32 * i)
  {
    assert s[..i + 1][..i] == s[..i];
  }

  lemma {:induction false} ValBound(s: seq<Limb>)
    ensures 0 <= Val(s) < Pow2(32 * |s|)
  {
    if s != [] {
      hide Pow2, Scale;
      var n := |s| - 1;
      ValBound(s[..n]);
      Pow2Of32();
      ScaleBelow(s[n], 32, 32 * n);
      ScaleNonNegative(s[n], 32 * n);
      assert 32 * |s| == 32 + 32 * n;
    }
  }

  lemma {:induction false} ValSet(s: seq<Limb>, i: nat, x: Limb)
    requires i < |s|
    ensures Val(s[i := x]) == Val(s) - Scale(s[i], 32 * i) + Scale(x, 32 * i)
  {
    hide Scale;
    var n := |s| - 1;
    if i == n {
      assert s[i := x][..n] == s[..n];
    } else {
      ValSet(s[..n], i, x);
      assert s[i := x][..n] == s[..n][i := x];
    }
  }

  lemma {:induction false} ValZero(s: seq<Limb>)
    requires forall i :: 0 <= i < |s| ==> s[i] == 0
    ensures Val(s) == 0
  {
    if s != [] {
      hide Scale;
      ValZero(s[..|s| - 1]);
      ScaleOne(32 * (|s| - 1));
    }
  }

  /** The limbs from `i` on make a number moved up by `i` limbs. */
  lemma {:induction false} ValDrop(s: seq<Limb>, i: nat)
    requires i <= |s|
    ensures Val(s) == Val(s[..i]) + Scale(Val(s[i..]), 32 * i)
  {
    hide Scale;
    if i == |s| {
      assert s[..i] == s && s[i..] == [];
      ScaleOne(32 * i);
    } else {
      var n := |s| - 1;
      ValDrop(s[..n], i);
      assert s[..n][..i] == s[..i] && s[..n][i..] == s[i..n];
      assert s[i..][..n - i] == s[i..n];
      ScaleSum(Val(s[i..n]), Scale(s[n], 32 * (n - i)), 32 * i);
      ScaleTwice(s[n], 32 * (n - i), 32 * i);
      assert 32 * (n - i) + 32 * i == 32 * n;
    }
  }

  // ---------- machine words ----------

  /** `x << r` in 32 bits. */
  function Shl(x: Limb, r: nat): Limb { Scale(x, r) % BASE }

  /** `x >> r`. */
  function Shr(x: Limb, r: nat): Limb {
    DivDown(x, Pow2(r));
    x / Pow2(r)
  }

  predicate MultipleOf(y: nat, e: nat) { y % Pow2(e) == 0 }

  /** The 64-bit product of a limb and two to the `r`: its upper half is `x >> (32 - r)`, its lower half `x << r`. */
  lemma Halves(x: Limb, r: nat)
    requires r <= 32
    ensures Scale(x, r) == Shr(x, 32 - r) * BASE + Shl(x, r)
    ensures Shr(x, 32 - r) < Pow2(r) && MultipleOf(Shl(x, r), r) && Shl(x, r) + Pow2(r) <= BASE
  {
    hide Pow2, Scale;
    Pow2Of32();
    var h, m := x / Pow2(32 - r), x % Pow2(32 - r);
    ModOf(x, 32 - r);
    ScaleSum(Scale(h, 32 - r), m, r);
    ScaleTwice(h, 32 - r, r);
    ScaleBase(h, 0);
    ScaleNone(h * BASE);
    ScaleBelow(m, 32 - r, r);
    ScaleNonNegative(m, r);
    assert Scale(x, r) == h * BASE + Scale(m, r);
    DivModIs(Scale(x, r), BASE, h, Scale(m, r));
    ModIs(Scale(m, r), r, m, 0);
    HighFits(x, h, m, r);
  }

  lemma HighFits(x: Limb, h: int, m: int, r: nat)
    requires r <= 32 && x == Scale(h, 32 - r) + m && 0 <= m
    ensures h < Pow2(r)
  {
    hide Pow2, Scale;
    if h >= Pow2(r) {
      Pow2Of32();
      ScaleUp(Pow2(r), h, 32 - r);
      ScaleOne(r);
      ScaleTwice(1, r, 32 - r);
      ScaleOne(32);
    }
  }

  /** Bitwise or. */
  function BitOr(x: nat, y: nat): nat {
    if x == 0 then y
    else if y == 0 then x
    else 2 * BitOr(x / 2, y / 2) + (if x % 2 == 1 || y % 2 == 1 then 1 else 0)
  }

  /** Numbers without common bits: one below two to the `e`, the other a multiple of it. */
  lemma OrAdds(x: nat, y: nat, e: nat)
    requires x < Pow2(e) && MultipleOf(y, e)
    ensures BitOr(x, y) == x + y
  {
    hide Pow2, Scale;
    ModOf(y, e);
    DivDown(y, Pow2(e));
    OrAddsTimes(x, y, e, y / Pow2(e));
  }

  lemma {:induction false} OrAddsTimes(x: nat, y: nat, e: nat, q: nat)
    requires x < Pow2(e) && y == Scale(q, e)
    ensures BitOr(x, y) == x + y
    decreases e
  {
    if x > 0 && y > 0 {
      assert y == 2 * Scale(q, e - 1) by { assert q * (2 * Pow2(e - 1)) == 2 * (q * Pow2(e - 1)); }
      ScaleNonNegative(q, e - 1);
      OrAddsTimes(x / 2, y / 2, e - 1, q);
    }
  }
}
