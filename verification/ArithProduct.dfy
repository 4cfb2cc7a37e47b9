/** Multiplication and division of `base_uint` (src/arith_uint256.cpp). */
module ArithProduct {

  import opened Limbs
  import opened ArithUint

  function Prod(a: int, b: int): int { a * b }

  lemma ProdSum(a: int, b: int, c: int)
    ensures Prod(a, b + c) == Prod(a, b) + Prod(a, c) && Prod(b + c, a) == Prod(b, a) + Prod(c, a)
  {
  }

  lemma ProdScale(a: int, b: int, e: nat)
    ensures Prod(a, Scale(b, e)) == Scale(Prod(a, b), e) && Prod(Scale(a, e), b) == Scale(Prod(a, b), e)
  {
    hide Pow2;
    assert a * (b * Pow2(e)) == (a * b) * Pow2(e) == (a * Pow2(e)) * b;
  }

  lemma ProdZero(a: int)
    ensures Prod(a, 0) == 0 && Prod(0, a) == 0
  {
  }

  /** A 64-bit accumulator holds a product of limbs and two limbs more. */
  lemma ProdBound(x: Limb, y: Limb)
    ensures 0 <= Prod(x, y) <= BASE * BASE - 2 * BASE + 1
  {
    MulUp(0, x, y);
    MulUp(x, BASE - 1, y);
    assert (BASE - 1) * (BASE - 1) == BASE * BASE - 2 * BASE + 1;
  }

  /** The lower half of a 64-bit accumulator. */
  function Low(m: int): Limb { m % BASE }

  method Copy(a: array<Limb>) returns (r: array<Limb>)
    ensures fresh(r) && r.Length == a.Length && r[..] == a[..]
  {
    r := new Limb[a.Length];
    for i := 0 to a.Length
      invariant r[..i] == a[..i]
    {
      r[i] := a[i];
    }
  }

  method Assign(a: array<Limb>, b: array<Limb>)
    requires a.Length == b.Length && a != b
    modifies a
    ensures a[..] == b[..]
  {
    for i := 0 to a.Length
      invariant a[..i] == b[..i]
    {
      a[i] := b[i];
    }
  }

  // ---------- multiplication ----------

  /** `operator*=` with a 32-bit factor. */
  method MulLimb(a: array<Limb>, b: Limb)
    modifies a
    ensures Val(a[..]) == Wrap(Prod(b, Val(old(a[..]))), a.Length)
  {
    hide Scale, Pow2, Val, Wrap, Prod;
    ghost var x := a[..];
    var n := a.Length;
    var carry := 0;
    ScaleOne(0);
    ValZero(a[..0]);
    ProdZero(b);
    for i := 0 to n
      invariant 0 <= carry < BASE && a[i..] == x[i..]
      invariant Val(a[..i]) + Scale(carry, 32 * i) == Prod(b, Val(x[..i]))
    {
      assert a[i] == x[i];
      ProdBound(b, a[i]);
      var m := carry + Prod(b, a[i]);
      ghost var was, c := a[..i], carry;
      a[i] := Low(m);
      carry := m / BASE;
      assert a[..i] == was && a[..][..i] == a[..i] && a[..][..i + 1] == a[..i + 1];
      ValTake(a[..], i);
      ValTake(x, i);
      CarryStep(m, Low(m), m / BASE, i);
      ScaleSum(c, Prod(b, x[i]), 32 * i);
      ProdSum(b, Val(x[..i]), Scale(x[i], 32 * i));
      ProdScale(b, x[i], 32 * i);
    }
    assert a[..n] == a[..] && x[..n] == x;
    ValBound(a[..]);
    WrapIs(Prod(b, Val(x)), n, carry, Val(a[..]));
  }

  /** The inner loop of `operator*=`: `r` gains `x` times the low limbs of `b`, `j` places up. */
  method MulRow(r: array<Limb>, x: Limb, b: array<Limb>, j: nat) returns (carry: int)
    requires r.Length == b.Length && j < b.Length && r != b
    modifies r
    ensures 0 <= carry < BASE
    ensures Val(r[..]) + Scale(carry, 32 * r.Length) ==
            Val(old(r[..])) + Scale(Prod(x, Val(b[..r.Length - j])), 32 * j)
  {
    hide Scale, Pow2, Val, Prod;
    ghost var v := Val(r[..]);
    carry := 0;
    ScaleOne(32 * j);
    ValZero(b[..0]);
    ProdZero(x);
    for i := 0 to r.Length - j
      invariant 0 <= carry < BASE
      invariant Val(r[..]) + Scale(carry, 32 * (i + j)) == v + Scale(Prod(x, Val(b[..i])), 32 * j)
    {
      ProdBound(x, b[i]);
      var m := carry + r[i + j] + Prod(x, b[i]);
      RowStep(r[..], b[..], x, carry, i, j);
      ghost var w := r[..];
      r[i + j] := Low(m);
      assert r[..] == w[i + j := Low(m)];
      assert b[..][..i] == b[..i] && b[..][..i + 1] == b[..i + 1];
      carry := m / BASE;
    }
  }

  lemma RowStep(r: seq<Limb>, b: seq<Limb>, x: Limb, carry: int, i: nat, j: nat)
    requires i < |b| && i + j < |r| && 0 <= carry < BASE
    ensures var m := carry + r[i + j] + Prod(x, b[i]);
            m >= 0 && Val(r[i + j := Low(m)]) + Scale(m / BASE, 32 * (i + 1 + j)) ==
            Val(r) + Scale(carry, 32 * (i + j))
            + Scale(Prod(x, Val(b[..i + 1])), 32 * j) - Scale(Prod(x, Val(b[..i])), 32 * j)
  {
    hide Scale, Pow2, Val, Prod;
    ProdBound(x, b[i]);
    var m := carry + r[i + j] + Prod(x, b[i]);
    ValSet(r, i + j, Low(m));
    CarryStep(m, Low(m), m / BASE, i + j);
    ScaleSum(carry + r[i + j], Prod(x, b[i]), 32 * (i + j));
    ScaleSum(carry, r[i + j], 32 * (i + j));
    ValTake(b, i);
    ProdSum(x, Val(b[..i]), Scale(b[i], 32 * i));
    ProdScale(x, b[i], 32 * i);
    ScaleSum(Prod(x, Val(b[..i])), Scale(Prod(x, b[i]), 32 * i), 32 * j);
    ScaleTwice(Prod(x, b[i]), 32 * i, 32 * j);
    assert 32 * i + 32 * j == 32 * (i + j);
  }

  /** `operator*=`; `b` may be the same number. */
  method Mul(a: array<Limb>, b: array<Limb>)
    requires a.Length == b.Length
    modifies a
    ensures Val(a[..]) == Wrap(Prod(Val(old(a[..])), Val(old(b[..]))), a.Length)
  {
    hide Scale, Pow2, Val, Prod, Wrap;
    var n := a.Length;
    var r := new Limb[n];
    Zero(r);
    ghost var lost: int := 0;
    ValZero(r[..]);
    ValZero(a[..0]);
    ProdZero(Val(b[..]));
    ScaleOne(32 * n);
    for j := 0 to n
      invariant a[..] == old(a[..]) && b[..] == old(b[..])
      invariant Prod(Val(a[..j]), Val(b[..])) == Val(r[..]) + Scale(lost, 32 * n)
    {
      ghost var v := Val(r[..]);
      var carry := MulRow(r, a[j], b, j);
      assert b[..][..n - j] == b[..n - j] && a[..][..j] == a[..j] && a[..][..j + 1] == a[..j + 1];
      lost := MulCount(a[..], b[..], j, v, Val(r[..]), carry, lost);
    }
    assert a[..n] == a[..];
    ValBound(r[..]);
    WrapIs(Prod(Val(a[..]), Val(b[..])), n, lost, Val(r[..]));
    Assign(a, r);
  }

  /** One row more; what falls off the top is a multiple of the modulus. */
  lemma MulCount(a: seq<Limb>, b: seq<Limb>, j: nat, v: int, w: int, carry: int, lost: int) returns (now: int)
    requires |a| == |b| && j < |a|
    requires Prod(Val(a[..j]), Val(b)) == v + Scale(lost, 32 * |a|)
    requires w + Scale(carry, 32 * |a|) == v + Scale(Prod(a[j], Val(b[..|a| - j])), 32 * j)
    ensures Prod(Val(a[..j + 1]), Val(b)) == w + Scale(now, 32 * |a|)
  {
    hide Scale, Pow2, Val, Prod;
    var n := |a|;
    var high := Prod(a[j], Val(b[n - j..]));
    ValTake(a, j);
    ProdSum(Val(b), Val(a[..j]), Scale(a[j], 32 * j));
    ProdScale(a[j], Val(b), 32 * j);
    ValDrop(b, n - j);
    ProdSum(a[j], Val(b[..n - j]), Scale(Val(b[n - j..]), 32 * (n - j)));
    ProdScale(a[j], Val(b[n - j..]), 32 * (n - j));
    ScaleSum(Prod(a[j], Val(b[..n - j])), Scale(high, 32 * (n - j)), 32 * j);
    ScaleTwice(high, 32 * (n - j), 32 * j);
    assert 32 * (n - j) + 32 * j == 32 * n;
    ScaleSum(lost, carry, 32 * n);
    ScaleSum(lost + carry, high, 32 * n);
    now := lost + carry + high;
  }

  // ---------- division ----------

  /** No bit of the quotient below or at `shift` is set yet. */
  predicate LowBitsClear(q: seq<Limb>, shift: int) {
    && (forall j :: 0 <= j < |q| && 32 * j + 31 <= shift ==> q[j] == 0)
    && (0 <= shift < 32 * |q| ==> MultipleOf(q[shift / 32], shift % 32 + 1))
  }

  lemma MultipleLess(y: nat, e: nat)
    requires MultipleOf(y, e + 1)
    ensures MultipleOf(y, e) && MultipleOf(y + Pow2(e), e)
  {
    hide Scale;
    ModOf(y, e + 1);
    var q := y / Pow2(e + 1);
    ScaleSum(q, q, e);
    ScaleDouble(q, e);
    ScaleOne(e);
    ScaleSum(2 * q, 1, e);
    ModIs(y, e, 2 * q, 0);
    ModIs(y + Pow2(e), e, 2 * q + 1, 0);
  }

  lemma ScaleDouble(x: int, e: nat)
    ensures Scale(x, e + 1) == Scale(2 * x, e)
  {
    assert x * (2 * Pow2(e)) == (2 * x) * Pow2(e);
  }

  /** A multiple of two to the `e + 1` that fits a limb leaves room for bit `e`. */
  lemma RoomForBit(y: Limb, e: nat)
    requires e < 32 && MultipleOf(y, e + 1)
    ensures y + Pow2(e) < BASE
  {
    hide Scale;
    Pow2Of32();
    Pow2Add(e + 1, 31 - e);
    ModOf(y, e + 1);
    var q := y / Pow2(e + 1);
    var top := Pow2(31 - e);
    ScaleOne(31 - e);
    ScaleTwice(1, 31 - e, e + 1);
    ScaleOne(32);
    if q >= top { ScaleUp(top, q, e + 1); }
    ScaleUp(q, top - 1, e + 1);
    ScaleSum(top, -1, e + 1);
    ScaleSum(1, -1, e + 1);
    ScaleOne(e + 1);
  }

  lemma {:induction false} OrCommutes(x: nat, y: nat)
    ensures BitOr(x, y) == BitOr(y, x)
  {
    if x != 0 && y != 0 { OrCommutes(x / 2, y / 2); }
  }

  /** `pn[shift / 32] |= 1 << (shift & 31)`. */
  method SetBit(q: array<Limb>, shift: nat)
    requires shift < 32 * q.Length && LowBitsClear(q[..], shift)
    modifies q
    ensures Val(q[..]) == Val(old(q[..])) + Pow2(shift) && LowBitsClear(q[..], shift - 1)
  {
    hide Val, Scale, Pow2, BitOr, MultipleOf;
    var k, e := shift / 32, shift % 32;
    ghost var w := q[..];
    Pow2Less(e, e + 1);
    OrAdds(Pow2(e), q[k], e + 1);
    OrCommutes(q[k], Pow2(e));
    RoomForBit(q[k], e);
    MultipleLess(q[k], e);
    ValSet(w, k, w[k] + Pow2(e));
    q[k] := BitOr(q[k], Pow2(e));
    assert q[..] == w[k := w[k] + Pow2(e)];
    ScaleSum(w[k], Pow2(e), 32 * k);
    ScaleOne(e);
    ScaleTwice(1, e, 32 * k);
    ScaleOne(shift);
    BitsStayClear(w, q[..], shift);
  }

  lemma BitsStayClear(w: seq<Limb>, q: seq<Limb>, shift: nat)
    requires shift < 32 * |w| && |q| == |w| && LowBitsClear(w, shift) && MultipleOf(q[shift / 32], shift % 32)
    requires forall j :: 0 <= j < |w| && j != shift / 32 ==> q[j] == w[j]
    ensures LowBitsClear(q, shift - 1)
  {
    hide MultipleOf;
    if shift % 32 == 0 && shift > 0 {
      assert q[(shift - 1) / 32] == 0;
      assert MultipleOf(0, 32) by { ZeroMultiple(32); }
    }
  }

  lemma ZeroMultiple(e: nat)
    ensures MultipleOf(0, e)
  {
    hide Pow2;
    ScaleOne(e);
    ModIs(0, e, 0, 0);
  }

  /** One turn of the loop of `operator/=`: a bit of the quotient, or none. */
  lemma DivStep(num: int, q: int, d: int, shift: nat)
    requires 0 <= num < Scale(d, shift + 1)
    ensures Prod(q + Pow2(shift), d) == Prod(q, d) + Scale(d, shift)
    ensures num - Scale(d, shift) < Scale(d, shift)
  {
    hide Pow2, Scale, Prod;
    ProdSum(d, q, Pow2(shift));
    ScaleOne(shift);
    ProdScale(1, d, shift);
    assert Prod(1, d) == d by { OneTimes(d); }
    ScaleDouble(d, shift);
    ScaleSum(d, d, shift);
  }

  lemma OneTimes(d: int)
    ensures Prod(1, d) == d
  {
  }

  /** Before the loop: aligned, the divisor still fits, and one place up it exceeds the number. */
  lemma Aligned(n: int, d: int, nb: nat, db: nat, width: nat)
    requires 0 < db <= nb <= width && Pow2(db - 1) <= d < Pow2(db) && 0 <= n < Pow2(nb)
    ensures 0 <= Scale(d, nb - db) < Pow2(width) && n < Scale(d, nb - db + 1)
  {
    hide Pow2, Scale;
    var shift := nb - db;
    ScaleBelow(d, db, shift);
    ScaleNonNegative(d, shift);
    Pow2Up(nb, width);
    ScaleUp(Pow2(db - 1), d, shift + 1);
    ScaleOne(db - 1);
    ScaleTwice(1, db - 1, shift + 1);
    ScaleOne(nb);
    assert db - 1 + (shift + 1) == nb;
  }

  lemma HalfScale(d: int, e: nat)
    requires e > 0
    ensures Scale(d, e) / Pow2(1) == Scale(d, e - 1)
  {
    hide Scale;
    ScaleTwice(d, e - 1, 1);
    ModIs(Scale(d, e), 1, Scale(d, e - 1), 0);
  }

  /** The loop of `operator/=`. */
  method DivLoop(q: array<Limb>, num: array<Limb>, div: array<Limb>, start: nat, ghost d: int)
    requires q.Length == num.Length == div.Length && q != num && q != div && num != div && start < 32 * q.Length
    requires (forall j :: 0 <= j < q.Length ==> q[j] == 0)
    requires Val(div[..]) == Scale(d, start) && 0 <= Val(num[..]) < Scale(d, start + 1)
    modifies q, num, div
    ensures Prod(Val(q[..]), d) + Val(num[..]) == Val(old(num[..])) && 0 <= Val(num[..]) < d
  {
    hide Pow2, Scale, Prod, Val, LowBitsClear, Wrap;
    ghost var n := Val(num[..]);
    var shift := start;
    ValZero(q[..]);
    ProdZero(d);
    ScaleNone(d);
    assert LowBitsClear(q[..], shift) by { AllClear(q[..], shift); }
    while shift >= 0
      invariant -1 <= shift < 32 * q.Length && LowBitsClear(q[..], shift)
      invariant Prod(Val(q[..]), d) + Val(num[..]) == n && 0 <= Val(num[..]) < Scale(d, shift + 1)
      invariant shift >= 0 ==> Val(div[..]) == Scale(d, shift)
    {
      DivStep(Val(num[..]), Val(q[..]), d, shift);
      assert LowBitsClear(q[..], shift - 1) by { StillClear(q[..], shift); }
      var c := Compare(num, div);
      if c >= 0 {
        Sub(num, div);
        SetBit(q, shift);
      }
      ShiftRight(div, 1);
      if shift > 0 { HalfScale(d, shift); }
      shift := shift - 1;
    }
  }

  lemma AllClear(q: seq<Limb>, shift: int)
    requires forall j :: 0 <= j < |q| ==> q[j] == 0
    ensures LowBitsClear(q, shift)
  {
    hide MultipleOf;
    if 0 <= shift < 32 * |q| { ZeroMultiple(shift % 32 + 1); }
  }

  lemma StillClear(q: seq<Limb>, shift: nat)
    requires shift < 32 * |q| && LowBitsClear(q, shift)
    ensures LowBitsClear(q, shift - 1)
  {
    hide MultipleOf;
    MultipleLess(q[shift / 32], shift % 32);
    BitsStayClear(q, q, shift);
  }

  /** `operator/=`; dividing by zero throws, after the number has been set to zero. `b` may be the same number. */
  method Divide(a: array<Limb>, b: array<Limb>) returns (ok: bool)
    requires a.Length == b.Length
    modifies a
    ensures ok == (Val(old(b[..])) != 0)
    ensures Val(a[..]) == if ok then Val(old(a[..])) / Val(old(b[..])) else 0
  {
    hide Pow2, Scale, Prod, Val, Wrap;
    ghost var n, d := Val(a[..]), Val(b[..]);
    ValBound(a[..]);
    ValBound(b[..]);
    var div := Copy(b);
    var num := Copy(a);
    Zero(a);
    ValZero(a[..]);
    var numBits := Bits(num);
    var divBits := Bits(div);
    if divBits == 0 { return false; }
    if divBits > numBits {
      Pow2Up(numBits, divBits - 1);
      DivModIs(n, d, 0, n);
      return true;
    }
    var shift := numBits - divBits;
    Aligned(n, d, numBits, divBits, 32 * a.Length);
    WrapNone(Scale(d, shift), a.Length);
    ShiftLeft(div, shift);
    DivLoop(a, num, div, shift, d);
    QuotientIs(n, d, Val(a[..]), Val(num[..]));
    return true;
  }

  lemma QuotientIs(n: int, d: int, q: int, r: int)
    requires d > 0 && Prod(q, d) + r == n && 0 <= r < d
    ensures n / d == q
  {
    DivModIs(n, d, q, r);
  }
}
