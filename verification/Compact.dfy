/**
  The compact encoding of targets, and the work that a target stands for (src/arith_uint256.cpp,
  src/chain.cpp).
 */
module Compact {

  import opened Limbs
  import opened ArithUint
  import opened ArithProduct

  // ---------- decoding ----------

  function SizeOf(c: nat): nat { c / 0x100_0000 }

  /** The mantissa, without the sign bit. */
  function WordOf(c: nat): nat { c % 0x80_0000 }

  predicate Signed(c: nat) { (c / 0x80_0000) % 2 == 1 }

  /** What the mantissa is after the shift for small sizes. */
  function Shifted(c: nat): (w: nat)
    ensures w <= WordOf(c)
  {
    if SizeOf(c) <= 3 then
      DivDown(WordOf(c), Pow2(8 * (3 - SizeOf(c))));
      WordOf(c) / Pow2(8 * (3 - SizeOf(c)))
    else WordOf(c)
  }

  predicate Negative(c: nat) { Shifted(c) != 0 && Signed(c) }

  predicate Overflows(c: nat) {
    && Shifted(c) != 0
    && (SizeOf(c) > 34 || (Shifted(c) > 0xff && SizeOf(c) > 33) || (Shifted(c) > 0xffff && SizeOf(c) > 32))
  }

  /** The number that a word encodes: mantissa times 256 to the power of size minus three, rounded down. */
  function Encoded(c: nat): int { Scale(WordOf(c), 8 * SizeOf(c)) / Pow2(24) }

  lemma EncodedIs(c: nat)
    ensures Encoded(c) == if SizeOf(c) <= 3 then Shifted(c) else Scale(Shifted(c), 8 * (SizeOf(c) - 3))
  {
    hide Scale, Pow2;
    var w, n := WordOf(c), SizeOf(c);
    if n <= 3 {
      ModOf(w, 24 - 8 * n);
      var q, r := w / Pow2(24 - 8 * n), w % Pow2(24 - 8 * n);
      ScaleSum(Scale(q, 24 - 8 * n), r, 8 * n);
      ScaleTwice(q, 24 - 8 * n, 8 * n);
      ScaleBelow(r, 24 - 8 * n, 8 * n);
      ScaleNonNegative(r, 8 * n);
      ModIs(Scale(w, 8 * n), 24, q, Scale(r, 8 * n));
      assert 8 * (3 - n) == 24 - 8 * n;
    } else {
      ScaleTwice(w, 8 * (n - 3), 24);
      ModIs(Scale(w, 8 * n), 24, Scale(w, 8 * (n - 3)), 0);
    }
  }

  /** A mantissa moved up by `e` bits reaches two to the 256 exactly if it reaches two to the `256 - e`. */
  lemma Reaches(w: nat, e: nat)
    requires e <= 256
    ensures Scale(w, e) >= Pow2(256) <==> w >= Pow2(256 - e)
  {
    hide Scale, Pow2;
    ScaleOne(256 - e);
    ScaleTwice(1, 256 - e, e);
    ScaleOne(256);
    if w >= Pow2(256 - e) { ScaleUp(Pow2(256 - e), w, e); } else { ScaleBelow(w, 256 - e, e); }
  }

  lemma ReachesFar(w: nat, e: nat)
    requires e >= 256
    ensures Scale(w, e) >= Pow2(256) <==> w > 0
  {
    hide Scale, Pow2;
    ScaleOne(e);
    Pow2Up(256, e);
    if w > 0 { ScaleUp(1, w, e); }
  }

  /** The overflow flag is set exactly if the encoded number does not fit 256 bits. */
  lemma OverflowsIff(c: nat)
    ensures Overflows(c) <==> Encoded(c) >= Pow2(256)
  {
    hide Scale, Pow2;
    EncodedIs(c);
    Pow2Of32();
    var w, n := Shifted(c), SizeOf(c);
    if n <= 3 {
      Pow2Up(24, 256);
    } else if n <= 35 {
      Reaches(w, 8 * (n - 3));
      if n <= 32 { Pow2Up(24, 256 - 8 * (n - 3)); }
      assert n == 33 ==> 256 - 8 * (n - 3) == 16;
      assert n == 34 ==> 256 - 8 * (n - 3) == 8;
      ScaleOne(0);
      ScaleNone(1);
    } else {
      ReachesFar(w, 8 * (n - 3));
    }
  }

  /** `operator=` with a 64-bit number; here only ones that fit a limb occur. */
  method SetLow(a: array<Limb>, w: Limb)
    requires a.Length >= 2
    modifies a
    ensures Val(a[..]) == w
  {
    Zero(a);
    ghost var z := a[..];
    ValZero(z);
    ValSet(z, 0, w);
    ScaleNone(w);
    ScaleNone(0);
    hide Val, Scale;
    a[0] := w;
    assert a[..] == z[0 := w];
  }

  /** `SetCompact`: the value is the encoded number, as long as it fits. */
  method SetCompact(a: array<Limb>, c: nat) returns (negative: bool, overflow: bool)
    requires a.Length == 8 && c < BASE
    modifies a
    ensures negative == Negative(c) && overflow == Overflows(c)
    ensures Val(a[..]) == Wrap(Encoded(c), 8)
    ensures !overflow ==> Val(a[..]) == Encoded(c)
  {
    hide Val, Scale, Pow2, Wrap, Overflows, Encoded;
    EncodedIs(c);
    OverflowsIff(c);
    var size, word: nat := c / 0x100_0000, c % 0x80_0000;
    if size <= 3 {
      word := Shifted(c);
      SetLow(a, word);
    } else {
      SetLow(a, word);
      ShiftLeft(a, 8 * (size - 3));
    }
    negative := word != 0 && Signed(c);
    overflow := word != 0 && (size > 34 || (word > 0xff && size > 33) || (word > 0xffff && size > 32));
    assert overflow == Overflows(c) by { FlagIs(c); }
    NonNegative(c);
    if !overflow { WrapNone(Encoded(c), 8); }
    if size <= 3 { ValBound(a[..]); WrapNone(Encoded(c), 8); }
  }

  lemma FlagIs(c: nat)
    ensures Overflows(c) <==> Shifted(c) != 0 && (SizeOf(c) > 34 || (Shifted(c) > 0xff && SizeOf(c) > 33)
                                                  || (Shifted(c) > 0xffff && SizeOf(c) > 32))
  {
  }

  lemma NonNegative(c: nat)
    ensures Encoded(c) >= 0
  {
    EncodedIs(c);
    if SizeOf(c) > 3 { ScaleNonNegative(Shifted(c), 8 * (SizeOf(c) - 3)); }
  }

  // ---------- encoding ----------

  function BitLength(x: nat): nat { if x == 0 then 0 else 1 + BitLength(x / 2) }

  lemma {:induction false} BitLengthIs(x: nat)
    ensures x < Pow2(BitLength(x)) && (x > 0 ==> BitLength(x) > 0 && Pow2(BitLength(x) - 1) <= x)
  {
    if x > 0 { BitLengthIs(x / 2); }
  }

  lemma BitLengthUnique(x: nat, n: nat)
    requires x < Pow2(n) && if x == 0 then n == 0 else n > 0 && Pow2(n - 1) <= x
    ensures n == BitLength(x)
  {
    hide Pow2, BitLength;
    BitLengthIs(x);
    var m := BitLength(x);
    if x == 0 {
      assert m == 0 by { BitLengthZero(); }
    } else if m < n {
      Pow2Up(m, n - 1);
    } else if n < m {
      Pow2Up(n, m - 1);
    }
  }

  lemma BitLengthZero()
    ensures BitLength(0) == 0
  {
  }

  /** The top three bytes of a number as `GetCompact` takes them, for a number of `size` bytes. */
  function Mantissa(x: nat, size: nat): int {
    if size <= 3 then Scale(x, 8 * (3 - size)) else x / Pow2(8 * (size - 3))
  }

  /** `GetCompact` of a number that is not negative. */
  function Encode(x: nat): int {
    var size := (BitLength(x) + 7) / 8;
    var m := Mantissa(x, size);
    if m >= 0x80_0000 then (size + 1) * 0x100_0000 + m / 256 else size * 0x100_0000 + m
  }

  /**
    The size and the mantissa that stand for `x`: scaled up by three bytes, `x` has its highest bit
    among bits 15 to 22 above the size.
   */
  ghost predicate Normal(x: nat, size: nat, m: int) {
    && Pow2(8 * size + 15) <= Scale(x, 24) < Pow2(8 * size + 23)
    && m == Scale(x, 24) / Pow2(8 * size)
  }

  lemma NormalUnique(x: nat, s: nat, m: int, s': nat, m': int)
    requires Normal(x, s, m) && Normal(x, s', m')
    ensures s == s' && m == m'
  {
    hide Pow2, Scale;
    if s < s' { Pow2Up(8 * s + 23, 8 * s' + 15); }
    if s' < s { Pow2Up(8 * s' + 23, 8 * s + 15); }
  }

  lemma NormalBounds(x: nat, s: nat, m: int)
    requires Normal(x, s, m)
    ensures 0x8000 <= m < 0x80_0000 && Scale(m, 8 * s) <= Scale(x, 24) < Scale(m, 8 * s) + Pow2(8 * s)
  {
    hide Pow2, Scale;
    ModOf(Scale(x, 24), 8 * s);
    assert Pow2(15) == 0x8000 && Pow2(23) == 0x80_0000 by { SmallPowers(); }
    if m >= Pow2(23) {
      ScaleUp(Pow2(23), m, 8 * s);
      ScaleOne(23);
      ScaleTwice(1, 23, 8 * s);
      ScaleOne(23 + 8 * s);
    }
    if m < Pow2(15) { ScaleBelow(m, 15, 8 * s); }
  }

  lemma SmallPowers()
    ensures Pow2(7) == 0x80 && Pow2(15) == 0x8000 && Pow2(16) == 0x1_0000 && Pow2(23) == 0x80_0000 && Pow2(24) == 0x100_0000
  {
    Pow2Of32();
  }

  /** With `size` bytes the top three bytes are at least two to the 16, so one step of the size makes them normal. */
  lemma MantissaIs(x: nat, size: nat)
    requires x > 0 && x < Pow2(8 * size) && size > 0 && Pow2(8 * (size - 1)) <= x
    ensures Mantissa(x, size) == Scale(x, 24) / Pow2(8 * size)
    ensures Pow2(8 * size + 16) <= Scale(x, 24) < Pow2(8 * size + 24)
  {
    hide Pow2, Scale;
    ScaleBelow(x, 8 * size, 24);
    ScaleUp(Pow2(8 * (size - 1)), x, 24);
    ScaleOne(8 * (size - 1));
    ScaleTwice(1, 8 * (size - 1), 24);
    ScaleOne(8 * size + 16);
    if size <= 3 {
      ScaleTwice(x, 8 * (3 - size), 8 * size);
      ModIs(Scale(x, 24), 8 * size, Scale(x, 8 * (3 - size)), 0);
    } else {
      var e := 8 * (size - 3);
      ModOf(x, e);
      var q, r := x / Pow2(e), x % Pow2(e);
      ScaleSum(Scale(q, e), r, 24);
      ScaleTwice(q, e, 24);
      ScaleBelow(r, e, 24);
      ScaleNonNegative(r, 24);
      ModIs(Scale(x, 24), 8 * size, q, Scale(r, 24));
    }
  }

  lemma DivTwice(x: int, d: nat, e: nat)
    ensures x / Pow2(d) / Pow2(e) == x / Pow2(d + e)
  {
    hide Pow2, Scale;
    ModOf(x, d);
    var y, r := x / Pow2(d), x % Pow2(d);
    ModOf(y, e);
    var z, t := y / Pow2(e), y % Pow2(e);
    ScaleSum(Scale(z, e), t, d);
    ScaleTwice(z, e, d);
    ScaleBelow(t, e, d);
    ScaleNonNegative(t, d);
    ModIs(x, d + e, z, Scale(t, d) + r);
  }

  /** What `GetCompact` writes: the normal size in the top byte and the mantissa below the sign bit. */
  lemma EncodeNormal(x: nat) returns (s: nat, m: int)
    requires x > 0
    ensures Encode(x) == s * 0x100_0000 + m && Normal(x, s, m)
  {
    hide Pow2, Scale, BitLength, Mantissa;
    BitLengthIs(x);
    SmallPowers();
    Pow2Of32();
    var n := BitLength(x);
    var size := (n + 7) / 8;
    Pow2Up(n, 8 * size);
    Pow2Up(8 * (size - 1), n - 1);
    MantissaIs(x, size);
    m := Mantissa(x, size);
    ModOf(Scale(x, 24), 8 * size);
    ScaleOne(23);
    ScaleTwice(1, 23, 8 * size);
    ScaleOne(23 + 8 * size);
    if m >= 0x80_0000 {
      ScaleUp(Pow2(23), m, 8 * size);
      DivTwice(Scale(x, 24), 8 * size, 8);
      Pow2Up(8 * size + 24, 8 * (size + 1) + 23);
      s, m := size + 1, m / 256;
    } else {
      ScaleBelow(m, 23, 8 * size);
      Pow2Up(8 * size + 15, 8 * size + 16);
      s := size;
    }
  }

  lemma Fields(s: nat, m: int)
    requires 0 <= m < 0x80_0000
    ensures SizeOf(s * 0x100_0000 + m) == s && WordOf(s * 0x100_0000 + m) == m && !Signed(s * 0x100_0000 + m)
  {
  }

  /**
    Decoding what was encoded: never more than the number, short of it by at most its 2^-15th part,
    not negative, not overflowing if the number fits, and encoded again to the same word.
   */
  lemma EncodeDecodes(x: nat)
    ensures Encode(x) >= 0
    ensures var d := Encoded(Encode(x));
            && 0 <= d <= x && Scale(x - d, 15) <= x
            && !Negative(Encode(x)) && (x < Pow2(256) ==> !Overflows(Encode(x)))
            && Encode(d) == Encode(x)
  {
    hide Pow2, Scale, Encode, Encoded, Normal, Overflows, SizeOf, WordOf, Signed, Shifted;
    if x == 0 {
      EncodeZero();
    } else {
      var s, m := EncodeNormal(x);
      NormalBounds(x, s, m);
      Fields(s, m);
      NormalDecodes(x, s, m);
      NonNegative(Encode(x));
      OverflowsIff(Encode(x));
    }
  }

  lemma EncodeZero()
    ensures Encode(0) == 0 && Encoded(0) == 0 && Scale(0, 15) == 0 && !Negative(0) && !Overflows(0)
  {
    hide Pow2, Scale;
    ScaleOne(15);
    ScaleOne(24);
    ScaleOne(0);
    DivDown(0, Pow2(24));
  }

  lemma NormalDecodes(x: nat, s: nat, m: int)
    requires x > 0 && Encode(x) == s * 0x100_0000 + m && Normal(x, s, m) && 0x8000 <= m < 0x80_0000
    requires SizeOf(Encode(x)) == s && WordOf(Encode(x)) == m
    ensures var d := Encoded(Encode(x)); 0 <= d <= x && Scale(x - d, 15) <= x && Encode(d) == Encode(x)
  {
    hide Pow2, Scale, Encode, Normal, SizeOf, WordOf;
    var d := Encoded(Encode(x));
    NormalBounds(x, s, m);
    if s <= 3 {
      SmallExact(x, s, m);
      ScaleOne(15);
    } else {
      LargeDecodes(x, s, m);
    }
  }

  /** Up to three bytes nothing is cut off. */
  lemma SmallExact(x: nat, s: nat, m: int)
    requires s <= 3 && Normal(x, s, m)
    ensures Scale(m, 8 * s) / Pow2(24) == x
  {
    hide Pow2, Scale;
    ScaleTwice(x, 24 - 8 * s, 8 * s);
    ModIs(Scale(x, 24), 8 * s, Scale(x, 24 - 8 * s), 0);
    ModIs(Scale(x, 24), 24, x, 0);
  }

  lemma LargeDecodes(x: nat, s: nat, m: int)
    requires x > 0 && s > 3 && Encode(x) == s * 0x100_0000 + m && Normal(x, s, m)
    ensures var d := Scale(m, 8 * s) / Pow2(24); 0 <= d <= x && Scale(x - d, 15) <= x && Encode(d) == Encode(x)
  {
    hide Pow2, Scale, Encode;
    var d := Scale(m, 8 * (s - 3));
    NormalBounds(x, s, m);
    ScaleTwice(m, 8 * (s - 3), 24);
    ModIs(Scale(m, 8 * s), 24, d, 0);
    ScaleNonNegative(m, 8 * (s - 3));
    assert d <= x by { if d > x { ScaleUp(x + 1, d, 24); ScaleSum(x, 1, 24); ScaleOne(24); } }
    ErrorSmall(x, d, s);
    NormalAgain(d, s, m);
  }

  /** Less than one unit of the mantissa is lost, and the mantissa is at least two to the 15. */
  lemma ErrorSmall(x: nat, d: int, s: nat)
    requires 0 <= d <= x && Scale(x, 24) < Scale(d, 24) + Pow2(8 * s) && Pow2(8 * s + 15) <= Scale(x, 24)
    ensures Scale(x - d, 15) <= x
  {
    hide Pow2, Scale;
    ScaleSum(d, x - d, 24);
    ScaleUp(Scale(x - d, 24), Pow2(8 * s), 15);
    ScaleOne(8 * s);
    ScaleTwice(1, 8 * s, 15);
    ScaleOne(8 * s + 15);
    ScaleTwice(x - d, 24, 15);
    ScaleTwice(x - d, 15, 24);
    if Scale(x - d, 15) > x {
      ScaleUp(x + 1, Scale(x - d, 15), 24);
      ScaleSum(x, 1, 24);
      ScaleOne(24);
    }
  }

  lemma NormalAgain(d: nat, s: nat, m: int)
    requires Scale(d, 24) == Scale(m, 8 * s) && 0x8000 <= m < 0x80_0000
    ensures d > 0 && Encode(d) == s * 0x100_0000 + m
  {
    hide Pow2, Scale, Encode;
    SmallPowers();
    ScaleUp(Pow2(15), m, 8 * s);
    ScaleOne(15);
    ScaleTwice(1, 15, 8 * s);
    ScaleOne(15 + 8 * s);
    ScaleBelow(m, 23, 8 * s);
    ScaleOne(24);
    ModIs(Scale(d, 24), 8 * s, m, 0);
    var s', m' := EncodeNormal(d);
    NormalUnique(d, s, m, s', m');
  }

  lemma DivUp(x: int, y: int, e: nat)
    requires x <= y
    ensures x / Pow2(e) <= y / Pow2(e)
  {
    hide Pow2, Scale;
    ModOf(x, e);
    ModOf(y, e);
    var q, p := x / Pow2(e), y / Pow2(e);
    if p < q {
      ScaleUp(p + 1, q, e);
      ScaleSum(p, 1, e);
      ScaleOne(e);
    }
  }

  /** A larger number never has a smaller encoding. */
  lemma EncodeMonotone(x: nat, y: nat)
    requires x <= y
    ensures Encode(x) <= Encode(y)
  {
    hide Pow2, Scale, Encode;
    if x == 0 {
      EncodeZero();
      EncodeDecodes(y);
    } else {
      var s, m := EncodeNormal(x);
      var s', m' := EncodeNormal(y);
      NormalBounds(x, s, m);
      NormalBounds(y, s', m');
      ScaleUp(x, y, 24);
      if s > s' { Pow2Up(8 * s' + 23, 8 * s + 15); }
      DivUp(Scale(x, 24), Scale(y, 24), 8 * s);
    }
  }

  // ---------- the method ----------

  /** `GetLow64`. */
  method Low64(a: array<Limb>) returns (r: nat)
    requires a.Length >= 2
    ensures r == Val(a[..]) % Pow2(64)
  {
    hide Pow2, Scale, Val, BitOr;
    ghost var s := a[..];
    Pow2Of32();
    ScaleNonNegative(a[1], 32);
    assert Scale(a[1], 32) == a[1] * BASE by { ScaleBase(a[1], 0); ScaleNone(a[1] * BASE); }
    ModIs(Scale(a[1], 32), 32, a[1], 0);
    OrAdds(a[0], a[1] * BASE, 32);
    r := BitOr(a[0], a[1] * BASE);
    ValDrop(s, 2);
    ValTake(s, 1);
    ValTake(s, 0);
    ValZero(s[..0]);
    ScaleNone(s[0]);
    ValBound(s[..2]);
    ModIs(Val(s), 64, Val(s[2..]), r);
  }

  lemma {:induction false} OrBit(x: nat, e: nat)
    requires !BitSet(x, e)
    ensures BitOr(x, Pow2(e)) == x + Pow2(e)
  {
    if x != 0 {
      if e == 0 {
        assert BitOr(x, 1) == 2 * BitOr(x / 2, 0) + 1;
      } else {
        DivTwice(x, 1, e - 1);
        assert x / Pow2(1) == x / 2;
        OrBit(x / 2, e - 1);
      }
    }
  }

  lemma QuotientBelow(x: nat, d: nat, e: nat)
    requires x < Pow2(d + e)
    ensures 0 <= x / Pow2(e) < Pow2(d)
  {
    hide Pow2, Scale;
    ModOf(x, e);
    DivDown(x, Pow2(e));
    var q := x / Pow2(e);
    if q >= Pow2(d) {
      ScaleUp(Pow2(d), q, e);
      ScaleOne(d);
      ScaleTwice(1, d, e);
      ScaleOne(d + e);
    }
  }

  /** The three most significant bytes, as a 32-bit word. */
  method TopBytes(a: array<Limb>, size: nat) returns (m: nat)
    requires a.Length == 8 && 0 <= Val(a[..]) < Pow2(8 * size)
    ensures m == Mantissa(Val(a[..]), size) && m < 0x100_0000
  {
    hide Pow2, Scale, Val;
    ghost var x := Val(a[..]);
    Pow2Of32();
    ScaleOne(64);
    if size <= 3 {
      Pow2Up(8 * size, 64);
      ModIs(x, 64, 0, x);
      ScaleBelow(x, 8 * size, 8 * (3 - size));
      ScaleNonNegative(x, 8 * (3 - size));
      var low := Low64(a);
      m := Scale(low, 8 * (3 - size));
    } else {
      var bn := Copy(a);
      ShiftRight(bn, 8 * (size - 3));
      QuotientBelow(x, 24, 8 * (size - 3));
      Pow2Up(24, 64);
      ModIs(Val(bn[..]), 64, 0, Val(bn[..]));
      m := Low64(bn);
    }
  }

  lemma EncodeIs(x: nat)
    ensures var size := (BitLength(x) + 7) / 8;
            var top := Mantissa(x, size);
            Encode(x) == if top >= 0x80_0000 then (size + 1) * 0x100_0000 + top / 256 else size * 0x100_0000 + top
  {
  }

  lemma OrSize(m: nat, size: nat)
    requires m < 0x100_0000
    ensures BitOr(m, size * 0x100_0000) == m + size * 0x100_0000
  {
    hide BitOr;
    SmallPowers();
    OrAdds(m, size * 0x100_0000, 24);
  }

  lemma SignClear(m: nat, size: nat)
    requires m < 0x80_0000
    ensures !BitSet(m + size * 0x100_0000, 23)
  {
    SmallPowers();
  }

  /** `GetCompact`; both of its assertions hold. */
  method GetCompact(a: array<Limb>, negative: bool) returns (c: nat)
    requires a.Length == 8
    ensures Val(a[..]) >= 0
    ensures c == Encode(Val(a[..])) + if negative && Encode(Val(a[..])) % 0x80_0000 != 0 then 0x80_0000 else 0
  {
    hide Pow2, Scale, Val, BitOr, BitLength, Encode, Mantissa, BitSet;
    ghost var x := Val(a[..]);
    ValBound(a[..]);
    var bits := Bits(a);
    BitLengthUnique(x, bits);
    var size := (bits + 7) / 8;
    Pow2Up(bits, 8 * size);
    SmallPowers();
    ghost var top := Mantissa(x, size);
    assert Encode(x) == if top >= 0x80_0000 then (size + 1) * 0x100_0000 + top / 256 else size * 0x100_0000 + top by {
      EncodeIs(x);
    }
    var m := TopBytes(a, size);
    TopBit(m, 23);
    if BitSet(m, 23) {
      m := m / 256;
      size := size + 1;
    }
    assert m < 0x80_0000 && size < 256;
    OrSize(m, size);
    c := BitOr(m, size * 0x100_0000);
    if negative && c % 0x80_0000 != 0 {
      SignClear(m, size);
      OrBit(c, 23);
      c := BitOr(c, 0x80_0000);
    }
  }

  // ---------- work ----------

  /** `EqualTo`: the limbs from the third on are zero and the two lowest are the halves of `b`. */
  method EqualTo(a: array<Limb>, b: nat) returns (r: bool)
    requires a.Length >= 2 && b < BASE * BASE
    ensures r <==> Val(a[..]) == b
  {
    hide Val, Scale, Pow2;
    ghost var s := a[..];
    ValDrop(s, 2);
    ValTake(s, 1);
    ValTake(s, 0);
    ValZero(s[..0]);
    ScaleNone(s[0]);
    assert Scale(s[1], 32) == s[1] * BASE by { ScaleBase(s[1], 0); ScaleNone(s[1] * BASE); }
    assert Pow2(64) == BASE * BASE by { Pow2Of32(); Pow2Add(32, 32); }
    ValBound(s[2..]);
    ScaleOne(64);
    var i := a.Length;
    while i > 2
      invariant 2 <= i <= a.Length && forall j :: i <= j < a.Length ==> a[j] == 0
    {
      i := i - 1;
      if a[i] != 0 {
        HighLimb(s[2..], i - 2);
        ScaleUp(1, Val(s[2..]), 64);
        return false;
      }
    }
    ValZero(s[2..]);
    if a[1] != b / BASE { return false; }
    if a[0] != b % BASE { return false; }
    return true;
  }

  lemma HighLimb(s: seq<Limb>, i: nat)
    requires i < |s| && s[i] != 0
    ensures Val(s) >= 1
  {
    hide Val, Scale, Pow2;
    ValDrop(s, i);
    ValBound(s[..i]);
    ValDrop(s[i..], 1);
    ValTake(s[i..], 0);
    ValZero(s[i..][..0]);
    ScaleNone(s[i]);
    ValBound(s[i..][1..]);
    ScaleNonNegative(Val(s[i..][1..]), 32);
    ScaleUp(1, Val(s[i..]), 32 * i);
    ScaleOne(32 * i);
  }

  /** The expected number of hashes for a target: two to the 256 over the target plus one. */
  function Work(c: nat): int {
    if Negative(c) || Overflows(c) || Encoded(c) <= 0 then 0 else Pow2(256) / (Encoded(c) + 1)
  }

  /** A target that fits is not all ones, so adding one does not wrap. */
  lemma TargetRoom(c: nat)
    requires !Overflows(c)
    ensures Encoded(c) + 1 < Pow2(256)
  {
    hide Scale, Pow2, Encoded, Overflows, Shifted;
    OverflowsIff(c);
    EncodedIs(c);
    if SizeOf(c) <= 3 {
      Pow2Of32();
      Pow2Up(32, 256);
    } else {
      var e := 8 * (SizeOf(c) - 3);
      ScaleDouble(Shifted(c), e - 1);
      ScaleSum(Shifted(c), Shifted(c), e - 1);
      Pow2Add(1, 255);
      assert Pow2(1) == 2 by { ScaleDouble(1, 0); ScaleOne(1); ScaleNone(2); }
    }
  }

  lemma WorkIs(p: int, t: int)
    requires 1 <= t && t + 1 < p
    ensures (p - 1 - t) / (t + 1) + 1 == p / (t + 1) && 0 <= p / (t + 1) < p
  {
    var d := t + 1;
    var q, r := p / d, p % d;
    assert p == q * d + r;
    DivModIs(p - d, d, q - 1, r) by { assert (q - 1) * d == q * d - d; }
    if q < 0 { MulUp(q, -1, d); }
    if q >= p { MulUp(2, d, q); }
  }

  /** `GetBlockProof`: exact for every word, never dividing by zero, never wrapping. */
  method GetBlockProof(c: nat) returns (r: array<Limb>)
    requires c < BASE
    ensures r.Length == 8 && Val(r[..]) == Work(c)
  {
    hide Val, Scale, Pow2, Wrap, Encoded, Overflows, Negative;
    var target := new Limb[8];
    var negative, overflow := SetCompact(target, c);
    NonNegative(c);
    var zero := EqualTo(target, 0);
    if negative || overflow || zero {
      r := new Limb[8];
      SetLow(r, 0);
      return;
    }
    TargetRoom(c);
    ghost var t := Encoded(c);
    WorkIs(Pow2(256), t);
    var one := new Limb[8];
    SetLow(one, 1);
    r := Complement(target);
    var next := Copy(target);
    Add(next, one);
    WrapNone(t + 1, 8);
    var ok := Divide(r, next);
    Add(r, one);
    WrapNone(Pow2(256) / (t + 1), 8);
  }
}
