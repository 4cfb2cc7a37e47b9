/**
  `base_uint` (src/arith_uint256.h, src/arith_uint256.cpp): fixed-width unsigned integers as arrays of
  32-bit limbs, for every width. Each operator is proved to compute modulo two to the width.
 */
module ArithUint {

  import opened Limbs

  /** The modulus: one more than the largest number of `n` limbs. */
  function Modulus(n: nat): nat { Pow2(32 * n) }

  /** What `n` limbs can hold of a number. */
  function Wrap(x: int, n: nat): int { x % Modulus(n) }

  lemma WrapIs(x: int, n: nat, q: int, r: int)
    requires x == Scale(q, 32 * n) + r && 0 <= r < Pow2(32 * n)
    ensures Wrap(x, n) == r
  {
    ModIs(x, 32 * n, q, r);
  }

  lemma WrapNone(x: int, n: nat)
    requires 0 <= x < Modulus(n)
    ensures Wrap(x, n) == x
  {
    ScaleOne(32 * n);
    WrapIs(x, n, 0, x);
  }

  // ---------- sums ----------

  /** One limb of a sum: the 64-bit `m` is split into a limb and a carry. */
  lemma CarryStep(m: int, lo: int, hi: int, i: nat)
    requires m == hi * BASE + lo
    ensures Scale(lo, 32 * i) + Scale(hi, 32 * (i + 1)) == Scale(m, 32 * i)
  {
    hide Scale;
    ScaleSum(hi * BASE, lo, 32 * i);
    ScaleBase(hi, 32 * i);
    assert 32 * (i + 1) == 32 + 32 * i;
  }

  method SetLimb(a: array<Limb>, i: nat, x: Limb)
    requires i < a.Length
    modifies a
    ensures a[..] == old(a[..])[i := x]
    ensures Val(a[..]) == Val(old(a[..])) - Scale(old(a[i]), 32 * i) + Scale(x, 32 * i)
  {
    hide Val, Scale;
    ghost var w := a[..];
    ValSet(w, i, x);
    a[i] := x;
    assert a[..] == w[i := x];
  }

  /** A limb of `a` is replaced by its sum with the carry and a limb of `b`. */
  lemma SumStep(c: int, x: int, y: int, i: nat)
    ensures Scale((c + x + y) % BASE, 32 * i) + Scale((c + x + y) / BASE, 32 * (i + 1)) ==
            Scale(c, 32 * i) + Scale(x, 32 * i) + Scale(y, 32 * i)
  {
    hide Scale;
    CarryStep(c + x + y, (c + x + y) % BASE, (c + x + y) / BASE, i);
    ScaleSum(c + x, y, 32 * i);
    ScaleSum(c, x, 32 * i);
  }

  /** `operator+=`; `b` may be the same number. */
  method Add(a: array<Limb>, b: array<Limb>)
    requires a.Length == b.Length
    modifies a
    ensures Val(a[..]) == Wrap(Val(old(a[..])) + Val(old(b[..])), a.Length)
  {
    hide Scale, Pow2, Val, Wrap;
    ghost var x, y := a[..], b[..];
    var n := a.Length;
    var carry := 0;
    ScaleOne(0);
    ValZero(y[..0]);
    for i := 0 to n
      invariant 0 <= carry <= 1
      invariant a[i..] == x[i..] && b[i..] == y[i..]
      invariant Val(a[..]) + Scale(carry, 32 * i) == Val(x) + Val(y[..i])
    {
      assert a[i] == x[i] && b[i] == y[i];
      var m := carry + a[i] + b[i];
      SumStep(carry, x[i], y[i], i);
      ValTake(y, i);
      SetLimb(a, i, m % BASE);
      carry := m / BASE;
    }
    assert y[..n] == y;
    ValBound(a[..]);
    WrapIs(Val(x) + Val(y), n, carry, Val(a[..]));
  }

  /** `operator~`. */
  method Complement(a: array<Limb>) returns (r: array<Limb>)
    ensures fresh(r) && r.Length == a.Length && Val(r[..]) == Modulus(a.Length) - 1 - Val(a[..])
  {
    var n := a.Length;
    r := new Limb[n];
    hide Scale;
    for i := 0 to n
      invariant Val(r[..i]) == Pow2(32 * i) - 1 - Val(a[..i])
    {
      ghost var was := r[..i];
      r[i] := BASE - 1 - a[i];
      assert r[..i] == was && r[..][..i] == r[..i] && r[..][..i + 1] == r[..i + 1];
      assert a[..][..i] == a[..i] && a[..][..i + 1] == a[..i + 1];
      ValTake(r[..], i);
      ValTake(a[..], i);
      hide Pow2;
      AllOnes(a[i], i);
    }
    assert r[..n] == r[..] && a[..n] == a[..];
  }

  lemma AllOnes(x: Limb, i: nat)
    ensures Scale(BASE - 1 - x, 32 * i) + Scale(x, 32 * i) + Pow2(32 * i) == Pow2(32 * (i + 1))
  {
    hide Scale, Pow2;
    ScaleSum(BASE - 1 - x, x, 32 * i);
    ScaleSum(BASE - 1, 1, 32 * i);
    ScaleBase(1, 32 * i);
    ScaleOne(32 * i);
    ScaleOne(32 * (i + 1));
    assert 32 * (i + 1) == 32 + 32 * i;
  }

  /** `operator++`. */
  method Increment(a: array<Limb>)
    modifies a
    ensures Val(a[..]) == Wrap(Val(old(a[..])) + 1, a.Length)
  {
    hide Scale, Pow2, Val, Wrap;
    ghost var x := a[..];
    var n := a.Length;
    var i := 0;
    ScaleOne(0);
    ScaleNone(1);
    ValBound(x);
    while i < n
      invariant 0 <= i <= n && Val(a[..]) + Pow2(32 * i) == Val(x) + 1
    {
      ghost var was: int := a[i];
      NextLimb(was, i);
      SetLimb(a, i, (a[i] + 1) % BASE);
      if a[i] != 0 {
        ValBound(a[..]);
        WrapNone(Val(a[..]), n);
        return;
      }
      i := i + 1;
    }
    ScaleOne(32 * n);
    ValBound(a[..]);
    WrapIs(Val(x) + 1, n, 1, Val(a[..]));
  }

  /** A limb takes a one, or turns to zero and passes the one on. */
  lemma NextLimb(x: int, i: nat)
    requires 0 <= x < BASE
    ensures Scale((x + 1) % BASE, 32 * i) + (if x + 1 == BASE then Pow2(32 * (i + 1)) else 0) ==
            Scale(x, 32 * i) + Pow2(32 * i)
  {
    hide Scale, Pow2;
    ScaleSum(x, 1, 32 * i);
    ScaleOne(32 * i);
    if x + 1 == BASE {
      ScaleBase(1, 32 * i);
      ScaleOne(32 * (i + 1));
      assert 32 * (i + 1) == 32 + 32 * i;
    }
  }

  /** `operator-`: the negative modulo two to the width. */
  method Negate(a: array<Limb>) returns (r: array<Limb>)
    ensures fresh(r) && r.Length == a.Length && Val(r[..]) == Wrap(-Val(a[..]), a.Length)
  {
    r := Complement(a);
    Increment(r);
    ghost var v, n := Val(a[..]), a.Length;
    ValBound(a[..]);
    hide Val, Wrap, Pow2, Scale;
    ScaleOne(32 * n);
    ScaleSum(1, -1, 32 * n);
    if v == 0 {
      WrapIs(Pow2(32 * n), n, 1, 0);
      WrapIs(0, n, 0, 0);
    } else {
      WrapNone(Pow2(32 * n) - v, n);
      WrapIs(-v, n, -1, Pow2(32 * n) - v);
    }
  }

  /** `operator-=`. */
  method Sub(a: array<Limb>, b: array<Limb>)
    requires a.Length == b.Length
    modifies a
    ensures Val(a[..]) == Wrap(Val(old(a[..])) - Val(old(b[..])), a.Length)
    ensures Val(old(a[..])) >= Val(old(b[..])) ==> Val(a[..]) == Val(old(a[..])) - Val(old(b[..]))
  {
    hide Val, Wrap, Pow2;
    ghost var x, y := Val(a[..]), Val(b[..]);
    ValBound(a[..]);
    ValBound(b[..]);
    var c := Negate(b);
    Add(a, c);
    WrapSum(x, -y, a.Length);
    if x >= y { WrapNone(x - y, a.Length); }
  }

  lemma WrapSum(x: int, y: int, n: nat)
    ensures Wrap(x + Wrap(y, n), n) == Wrap(x + y, n)
  {
    hide Scale, Pow2;
    var e := 32 * n;
    ModOf(y, e);
    ModOf(x + Wrap(y, n), e);
    var q, d := (x + Wrap(y, n)) / Pow2(e), y / Pow2(e);
    ScaleSum(q, d, e);
    WrapIs(x + y, n, q + d, Wrap(x + Wrap(y, n), n));
  }

  // ---------- order ----------

  /** `CompareTo`. */
  method Compare(a: array<Limb>, b: array<Limb>) returns (r: int)
    requires a.Length == b.Length
    ensures r == if Val(a[..]) < Val(b[..]) then -1 else if Val(a[..]) > Val(b[..]) then 1 else 0
  {
    var i := a.Length;
    hide Val;
    while i > 0
      invariant 0 <= i <= a.Length && a[i..] == b[i..]
    {
      i := i - 1;
      if a[i] < b[i] {
        Above(a[..], b[..], i);
        return -1;
      }
      if a[i] > b[i] {
        Above(b[..], a[..], i);
        return 1;
      }
    }
    assert a[..] == a[0..] == b[0..] == b[..];
    return 0;
  }

  /** The highest limb that differs decides. */
  lemma Above(x: seq<Limb>, y: seq<Limb>, i: nat)
    requires i < |x| == |y| && x[i + 1..] == y[i + 1..] && x[i] < y[i]
    ensures Val(x) < Val(y)
  {
    hide Scale, Pow2;
    ValDrop(x, i + 1);
    ValDrop(y, i + 1);
    ValTake(x, i);
    ValTake(y, i);
    ValBound(x[..i]);
    ValBound(y[..i]);
    var below: int := x[i];
    ScaleUp(below + 1, y[i], 32 * i);
    ScaleSum(below, 1, 32 * i);
    ScaleOne(32 * i);
  }

  predicate BitSet(x: nat, k: nat) { (x / Pow2(k)) % 2 == 1 }

  /** A number below two to the `k + 1` has bit `k` exactly if it is at least two to the `k`. */
  lemma TopBit(x: nat, k: nat)
    requires x < Pow2(k + 1)
    ensures BitSet(x, k) <==> x >= Pow2(k)
  {
    ScaleOne(k);
    if x >= Pow2(k) { ModIs(x, k, 1, x - Pow2(k)); } else { ModIs(x, k, 0, x); }
  }

  /** `bits`: the position of the highest bit set, plus one. */
  method Bits(a: array<Limb>) returns (r: nat)
    ensures r <= 32 * a.Length && Val(a[..]) < Pow2(r)
    ensures if Val(a[..]) == 0 then r == 0 else r > 0 && Pow2(r - 1) <= Val(a[..])
  {
    var pos := a.Length;
    hide Val, Pow2;
    while pos > 0
      invariant 0 <= pos <= a.Length && forall j :: pos <= j < a.Length ==> a[j] == 0
    {
      pos := pos - 1;
      if a[pos] != 0 {
        var nbits := 31;
        Pow2Of32();
        while nbits > 0
          invariant 0 <= nbits <= 31 && a[pos] < Pow2(nbits + 1)
        {
          TopBit(a[pos], nbits);
          if BitSet(a[pos], nbits) {
            HighestBit(a[..], pos, nbits);
            return 32 * pos + nbits + 1;
          }
          nbits := nbits - 1;
        }
        assert Pow2(0) == 1 by { ScaleOne(0); ScaleNone(1); }
        HighestBit(a[..], pos, 0);
        return 32 * pos + 1;
      }
    }
    ValZero(a[..]);
    assert Pow2(0) == 1 by { ScaleOne(0); ScaleNone(1); }
    return 0;
  }

  lemma HighestBit(s: seq<Limb>, pos: nat, k: nat)
    requires pos < |s| && (forall j :: pos < j < |s| ==> s[j] == 0) && Pow2(k) <= s[pos] < Pow2(k + 1)
    ensures Pow2(32 * pos + k) <= Val(s) < Pow2(32 * pos + k + 1)
  {
    hide Scale, Pow2, Val;
    ValDrop(s, pos + 1);
    ValZero(s[pos + 1..]);
    ScaleOne(32 * (pos + 1));
    ValTake(s, pos);
    ValBound(s[..pos]);
    ScaleUp(Pow2(k), s[pos], 32 * pos);
    ScaleOne(k);
    ScaleTwice(1, k, 32 * pos);
    ScaleOne(k + 32 * pos);
    ScaleBelow(s[pos], k + 1, 32 * pos);
    assert k + 1 + 32 * pos == 32 * pos + k + 1;
  }

  // ---------- shifts ----------

  method Zero(a: array<Limb>)
    modifies a
    ensures forall j :: 0 <= j < a.Length ==> a[j] == 0
  {
    for i := 0 to a.Length
      invariant forall j :: 0 <= j < i ==> a[j] == 0
    {
      a[i] := 0;
    }
  }

  /** `pn[j] |= y` where the two have no bits in common: one is below two to the `e`, the other a multiple of it. */
  method OrInto(a: array<Limb>, j: nat, y: Limb, ghost e: nat)
    requires j < a.Length && a[j] < Pow2(e) && MultipleOf(y, e) && a[j] + y < BASE
    modifies a
    ensures a[..] == old(a[..])[j := old(a[j]) + y]
    ensures Val(a[..]) == Val(old(a[..])) + Scale(y, 32 * j)
  {
    hide Val, Scale, Pow2, MultipleOf, BitOr;
    ghost var w := a[..];
    OrAdds(a[j], y, e);
    ValSet(w, j, a[j] + y);
    a[j] := BitOr(a[j], y);
    assert a[..] == w[j := w[j] + y];
    ScaleSum(w[j], y, 32 * j);
  }

  lemma AnyMultiple(y: nat)
    ensures MultipleOf(y, 0) && Pow2(0) == 1
  {
  }

  /** Nothing of a limb is left when all of it is shifted out. */
  lemma ShiftedOut(x: Limb)
    ensures Shr(x, 32) == 0 && Shl(x, 32) == 0
  {
    hide Scale, Pow2;
    Pow2Of32();
    ScaleBase(x, 0);
    ScaleNone(x * BASE);
    DivModIs(x * BASE, BASE, x, 0);
  }

  /** The body of the loop of `operator<<=`. */
  method ShlLimb(a: array<Limb>, x: Limb, i: nat, k: nat, r: nat)
    requires i < a.Length && r < 32
    requires forall j :: i + k < j < a.Length ==> a[j] == 0
    requires i + k < a.Length ==> a[i + k] < Pow2(r)
    modifies a
    ensures forall j :: i + 1 + k < j < a.Length ==> a[j] == 0
    ensures i + 1 + k < a.Length ==> a[i + 1 + k] < Pow2(r)
    ensures Val(a[..]) == Val(old(a[..])) + (if i + k < a.Length then Scale(Shl(x, r), 32 * (i + k)) else 0)
                          + (if i + k + 1 < a.Length then Scale(Shr(x, 32 - r), 32 * (i + k + 1)) else 0)
  {
    hide Val, Scale, Pow2, Shl, Shr, MultipleOf;
    Halves(x, r);
    AnyMultiple(Shr(x, 32 - r));
    if i + k + 1 < a.Length && r != 0 {
      OrInto(a, i + k + 1, Shr(x, 32 - r), 0);
    } else if i + k + 1 < a.Length {
      ShiftedOut(x);
      ScaleOne(32 * (i + k + 1));
    }
    if i + k < a.Length { OrInto(a, i + k, Shl(x, r), r); }
  }

  /** A limb moved up: its two halves, `k` places up; beyond the top that is a multiple of the modulus. */
  lemma ShlTerm(x: Limb, i: nat, k: nat, r: nat, n: nat) returns (lost: int)
    requires r <= 32
    ensures Scale(x, 32 * (i + k) + r) ==
            (if i + k < n then Scale(Shl(x, r), 32 * (i + k)) else 0)
            + (if i + k + 1 < n then Scale(Shr(x, 32 - r), 32 * (i + k + 1)) else 0) + Scale(lost, 32 * n)
  {
    hide Scale, Pow2, Shl, Shr;
    if i + k < n {
      Halves(x, r);
      CarryStep(Scale(x, r), Shl(x, r), Shr(x, 32 - r), i + k);
      ScaleTwice(x, r, 32 * (i + k));
      lost := if i + k + 1 == n then Shr(x, 32 - r) else 0;
      ScaleOne(32 * n);
    } else {
      lost := Scale(x, 32 * (i + k - n) + r);
      ScaleTwice(x, 32 * (i + k - n) + r, 32 * n);
    }
  }

  /** Limb `i` of `c` has joined the shifted number `w`. */
  lemma ShlCount(c: seq<Limb>, i: nat, k: nat, r: nat, n: nat, v: int, w: int, lost: int) returns (now: int)
    requires i < |c| && r < 32 && Scale(Val(c[..i]), 32 * k + r) == v + Scale(lost, 32 * n)
    requires w == v + (if i + k < n then Scale(Shl(c[i], r), 32 * (i + k)) else 0)
                  + (if i + k + 1 < n then Scale(Shr(c[i], 32 - r), 32 * (i + k + 1)) else 0)
    ensures Scale(Val(c[..i + 1]), 32 * k + r) == w + Scale(now, 32 * n)
  {
    hide Val, Scale, Pow2, Shl, Shr;
    ValTake(c, i);
    ScaleSum(Val(c[..i]), Scale(c[i], 32 * i), 32 * k + r);
    ScaleTwice(c[i], 32 * i, 32 * k + r);
    assert 32 * i + (32 * k + r) == 32 * (i + k) + r;
    var more := ShlTerm(c[i], i, k, r, n);
    ScaleSum(lost, more, 32 * n);
    now := lost + more;
  }

  /** `operator<<=`. */
  method ShiftLeft(a: array<Limb>, shift: nat)
    modifies a
    ensures Val(a[..]) == Wrap(Scale(Val(old(a[..])), shift), a.Length)
  {
    hide Val, Scale, Pow2, Shl, Shr, Wrap;
    var c, n := a[..], a.Length;
    Zero(a);
    var k, r := shift / 32, shift % 32;
    ghost var lost := 0;
    ValZero(a[..]);
    ValZero(c[..0]);
    ScaleOne(shift);
    ScaleOne(32 * n);
    for i := 0 to n
      invariant forall j :: i + k < j < n ==> a[j] == 0
      invariant i + k < n ==> a[i + k] < Pow2(r)
      invariant Scale(Val(c[..i]), shift) == Val(a[..]) + Scale(lost, 32 * n)
    {
      ghost var v := Val(a[..]);
      ShlLimb(a, c[i], i, k, r);
      lost := ShlCount(c, i, k, r, n, v, Val(a[..]), lost);
    }
    assert c[..n] == c;
    ValBound(a[..]);
    WrapIs(Scale(Val(c), shift), n, lost, Val(a[..]));
  }

  /** The body of the loop of `operator>>=`. */
  method ShrLimb(a: array<Limb>, x: Limb, i: nat, k: nat, r: nat)
    requires i < a.Length && r < 32
    requires forall j :: 0 <= j < a.Length && i - k <= j ==> a[j] == 0
    requires i > k ==> a[i - k - 1] < Pow2(32 - r)
    modifies a
    ensures forall j :: 0 <= j < a.Length && i + 1 - k <= j ==> a[j] == 0
    ensures i + 1 > k ==> a[i - k] < Pow2(32 - r)
    ensures Val(a[..]) == Val(old(a[..])) + (if i > k then Scale(Shl(x, 32 - r), 32 * (i - k - 1)) else 0)
                          + (if i >= k then Scale(Shr(x, r), 32 * (i - k)) else 0)
  {
    hide Val, Scale, Pow2, Shl, Shr, MultipleOf;
    Halves(x, 32 - r);
    AnyMultiple(Shr(x, r));
    if i > k && r != 0 {
      OrInto(a, i - k - 1, Shl(x, 32 - r), 32 - r);
    } else if i > k {
      ShiftedOut(x);
      ScaleOne(32 * (i - k - 1));
    }
    if i >= k { OrInto(a, i - k, Shr(x, r), 0); }
  }

  /** A limb above the cut: its two halves, moved back up by the shift. */
  lemma ShrTerm(x: Limb, i: nat, k: nat, r: nat)
    requires r <= 32 && i > k
    ensures Scale(x, 32 * i) == Scale(Scale(Shl(x, 32 - r), 32 * (i - k - 1)) + Scale(Shr(x, r), 32 * (i - k)), 32 * k + r)
  {
    hide Scale, Pow2, Shl, Shr;
    Halves(x, 32 - r);
    CarryStep(Scale(x, 32 - r), Shl(x, 32 - r), Shr(x, r), i - k - 1);
    ScaleTwice(x, 32 - r, 32 * (i - k - 1));
    ScaleTwice(x, 32 - r + 32 * (i - k - 1), 32 * k + r);
    assert 32 - r + 32 * (i - k - 1) + (32 * k + r) == 32 * i;
  }

  /** Limb `k` is cut: its upper part is the lowest limb of the quotient. */
  lemma ShrCut(x: Limb, k: nat, r: nat, rem: int) returns (now: int)
    requires r < 32 && 0 <= rem < Pow2(32 * k)
    ensures rem + Scale(x, 32 * k) == Scale(Shr(x, r), 32 * k + r) + now && 0 <= now < Pow2(32 * k + r)
  {
    hide Scale, Pow2;
    var m := x % Pow2(r);
    ModOf(x, r);
    ScaleSum(Scale(Shr(x, r), r), m, 32 * k);
    ScaleTwice(Shr(x, r), r, 32 * k);
    ScaleBelow(m, r, 32 * k);
    ScaleNonNegative(m, 32 * k);
    assert r + 32 * k == 32 * k + r;
    now := rem + Scale(m, 32 * k);
  }

  /** `v` is the quotient of the limbs so far and `rem` what is left of them; limb `i` joins. */
  lemma ShrCount(c: seq<Limb>, i: nat, k: nat, r: nat, v: int, w: int, rem: int) returns (now: int)
    requires i < |c| && r < 32 && Val(c[..i]) == Scale(v, 32 * k + r) + rem && 0 <= rem < Pow2(32 * k + r)
    requires i <= k ==> v == 0
    requires w == v + (if i > k then Scale(Shl(c[i], 32 - r), 32 * (i - k - 1)) else 0)
                  + (if i >= k then Scale(Shr(c[i], r), 32 * (i - k)) else 0)
    ensures Val(c[..i + 1]) == Scale(w, 32 * k + r) + now && 0 <= now < Pow2(32 * k + r)
  {
    hide Val, Scale, Pow2, Shl, Shr;
    ValTake(c, i);
    ValBound(c[..i]);
    ValBound(c[..i + 1]);
    ScaleOne(32 * k + r);
    if i < k {
      Pow2Up(32 * (i + 1), 32 * k + r);
      now := Val(c[..i + 1]);
    } else if i == k {
      now := ShrCut(c[i], k, r, rem);
      ScaleNone(Shr(c[i], r));
    } else {
      ShrTerm(c[i], i, k, r);
      ScaleSum(v, w - v, 32 * k + r);
      now := rem;
    }
  }

  /** `operator>>=`. */
  method ShiftRight(a: array<Limb>, shift: nat)
    modifies a
    ensures Val(a[..]) == Val(old(a[..])) / Pow2(shift)
  {
    hide Val, Scale, Pow2, Shl, Shr;
    var c, n := a[..], a.Length;
    Zero(a);
    var k, r := shift / 32, shift % 32;
    ghost var rem: int := 0;
    ValZero(a[..]);
    ValZero(c[..0]);
    ScaleOne(shift);
    for i := 0 to n
      invariant forall j :: 0 <= j < n && i - k <= j ==> a[j] == 0
      invariant i > k ==> a[i - k - 1] < Pow2(32 - r)
      invariant i <= k ==> Val(a[..]) == 0
      invariant Val(c[..i]) == Scale(Val(a[..]), shift) + rem && 0 <= rem < Pow2(shift)
    {
      ghost var v := Val(a[..]);
      ShrLimb(a, c[i], i, k, r);
      rem := ShrCount(c, i, k, r, v, Val(a[..]), rem);
    }
    assert c[..n] == c;
    ModIs(Val(c), shift, Val(a[..]), rem);
  }
}
