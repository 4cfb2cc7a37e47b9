/** Numbers as digit strings in any base, most significant first, and powers. */
module Digits {

  function Pow(b: nat, n: nat): nat { if n == 0 then 1 else b * Pow(b, n - 1) }

  lemma {:induction false} PowPositive(b: nat, n: nat)
    requires b >= 1
    ensures Pow(b, n) >= 1
  {
    if n > 0 {
      PowPositive(b, n - 1);
      MulUp(1, b, Pow(b, n - 1));
    }
  }

  lemma MulUp(a: int, b: int, m: int)
    requires a <= b && m >= 0
    ensures a * m <= b * m
  {
  }

  lemma {:induction false} PowAdd(b: nat, m: nat, n: nat)
    ensures Pow(b, m + n) == Pow(b, m) * Pow(b, n)
  {
    if m > 0 {
      PowAdd(b, m - 1, n);
      assert Pow(b, m + n) == b * Pow(b, m - 1 + n);
      assert b * (Pow(b, m - 1) * Pow(b, n)) == (b * Pow(b, m - 1)) * Pow(b, n);
    }
  }

  lemma {:induction false} PowUp(b: nat, m: nat, n: nat)
    requires b >= 1 && m <= n
    ensures Pow(b, m) <= Pow(b, n)
  {
    if m < n {
      PowUp(b, m, n - 1);
      MulUp(1, b, Pow(b, n - 1));
    }
  }

  lemma {:induction false} PowBase(a: nat, b: nat, n: nat)
    requires a <= b
    ensures Pow(a, n) <= Pow(b, n)
  {
    if n > 0 {
      PowBase(a, b, n - 1);
      MulUp(a, b, Pow(a, n - 1));
      MulUp(Pow(a, n - 1), Pow(b, n - 1), b);
    }
  }

  lemma {:induction false} PowPow(b: nat, m: nat, n: nat)
    ensures Pow(Pow(b, m), n) == Pow(b, m * n)
  {
    if n > 0 {
      PowPow(b, m, n - 1);
      PowAdd(b, m, m * (n - 1));
      assert m + m * (n - 1) == m * n;
    } else {
      assert m * n == 0;
    }
  }

  /** Roots keep the order. */
  lemma {:induction false} Root(x: nat, y: nat, n: nat)
    requires n >= 1 && Pow(x, n) <= Pow(y, n)
    ensures x <= y
  {
    if x > y { PowStrict(y, x, n); }
  }

  lemma {:induction false} PowStrict(a: nat, b: nat, n: nat)
    requires n >= 1 && a < b
    ensures Pow(a, n) < Pow(b, n)
  {
    var p, q := Pow(a, n - 1), Pow(b, n - 1);
    PowBase(a, b, n - 1);
    PowPositive(b, n - 1);
    MulUp(p, q, a);
    MulUp(a + 1, b, q);
    assert (a + 1) * q == a * q + q;
  }

  /**
    If `a` to the `p` is at most `b` to the `q`, then `n` digits in base `a` fit any number of digits in
    base `b` that exceeds `n` in the ratio of `q` to `p`.
   */
  lemma Fits(a: nat, b: nat, p: nat, q: nat, n: nat, size: nat)
    requires a >= 1 && b >= 1 && p >= 1 && Pow(a, p) <= Pow(b, q) && q * n <= p * size
    ensures Pow(a, n) <= Pow(b, size)
  {
    hide Pow;
    PowSwap(a, n, p);
    PowBase(Pow(a, p), Pow(b, q), n);
    PowGrows(b, q, n, p, size);
    PowSwap(b, p, size);
    Root(Pow(a, n), Pow(b, size), p);
  }

  lemma PowSwap(b: nat, m: nat, n: nat)
    ensures Pow(Pow(b, m), n) == Pow(Pow(b, n), m)
  {
    hide Pow;
    PowPow(b, m, n);
    PowPow(b, n, m);
    assert m * n == n * m;
  }

  lemma PowGrows(b: nat, q: nat, n: nat, p: nat, size: nat)
    requires b >= 1 && q * n <= p * size
    ensures Pow(Pow(b, q), n) <= Pow(Pow(b, p), size)
  {
    hide Pow;
    PowPow(b, q, n);
    PowPow(b, p, size);
    PowUp(b, q * n, p * size);
  }

  // ---------- digit strings ----------

  predicate DigitsOf(s: seq<nat>, b: nat) { forall i :: 0 <= i < |s| ==> s[i] < b }

  /** The number that a digit string stands for. */
  function Number(s: seq<nat>, b: nat): nat {
    if s == [] then 0 else Number(s[..|s| - 1], b) * b + s[|s| - 1]
  }

  /** The shortest digit string of a number. */
  function Write(v: nat, b: nat): seq<nat>
    requires b >= 2
  {
    if v == 0 then []
    else
      DivSmaller(v, b);
      Write(v / b, b) + [v % b]
  }

  lemma {:induction false} WriteOk(v: nat, b: nat)
    requires b >= 2
    ensures DigitsOf(Write(v, b), b) && Number(Write(v, b), b) == v && (v > 0 ==> Write(v, b)[0] != 0)
  {
    if v > 0 {
      DivSmaller(v, b);
      WriteOk(v / b, b);
      assert Write(v, b)[..|Write(v, b)| - 1] == Write(v / b, b);
      assert v == (v / b) * b + v % b;
    }
  }

  lemma DivSmaller(v: nat, b: nat)
    requires v > 0 && b >= 2
    ensures 0 <= v / b < v && v == (v / b) * b + v % b && 0 <= v % b < b
  {
    var q, r := v / b, v % b;
    assert v == q * b + r;
    if q >= v {
      MulUp(v, q, b);
      MulUp(2, b, v);
      assert false;
    }
    if q < 0 {
      MulUp(q, -1, b);
      assert false;
    }
  }

  lemma DivDigit(q: nat, d: nat, b: nat)
    requires d < b
    ensures (q * b + d) / b == q && (q * b + d) % b == d
  {
    var x := q * b + d;
    var e := x / b - q;
    assert x == (x / b) * b + x % b;
    assert e * b == d - x % b by { assert e * b == (x / b) * b - q * b; }
    if e >= 1 { MulUp(1, e, b); }
    if e <= -1 { MulUp(e, -1, b); }
  }

  /** A digit string that does not start with zero is the shortest one of its number. */
  lemma {:induction false} WriteNumber(s: seq<nat>, b: nat)
    requires b >= 2 && DigitsOf(s, b) && (s != [] ==> s[0] != 0)
    ensures Write(Number(s, b), b) == s && (s != [] ==> Number(s, b) > 0)
  {
    if s != [] {
      var n := |s| - 1;
      WriteNumber(s[..n], b);
      var q := Number(s[..n], b);
      DivDigit(q, s[n], b);
      assert s == s[..n] + [s[n]];
      if n == 0 { assert q == 0; } else { MulUp(1, q, b); }
    }
  }

  lemma {:induction false} NumberBound(s: seq<nat>, b: nat)
    requires b >= 1 && DigitsOf(s, b)
    ensures Number(s, b) < Pow(b, |s|)
  {
    if s != [] {
      var n := |s| - 1;
      NumberBound(s[..n], b);
      MulUp(Number(s[..n], b) + 1, Pow(b, n), b);
      assert (Number(s[..n], b) + 1) * b == Number(s[..n], b) * b + b;
    }
  }

  /** The first digits count for as many powers as digits follow. */
  lemma {:induction false} NumberConcat(s: seq<nat>, t: seq<nat>, b: nat)
    ensures Number(s + t, b) == Number(s, b) * Pow(b, |t|) + Number(t, b)
  {
    if t == [] {
      assert s + t == s;
    } else {
      var n := |t| - 1;
      NumberConcat(s, t[..n], b);
      assert (s + t)[..|s + t| - 1] == s + t[..n];
      Spread(Number(s, b), Pow(b, n), Number(t[..n], b), b);
    }
  }

  lemma Spread(x: int, p: int, y: int, b: int)
    ensures (x * p + y) * b == x * (b * p) + y * b
  {
  }

  lemma {:induction false} NumberZeros(s: seq<nat>, b: nat)
    requires forall i :: 0 <= i < |s| ==> s[i] == 0
    ensures Number(s, b) == 0
  {
    if s != [] { NumberZeros(s[..|s| - 1], b); }
  }
}
