/** Bech32 and Bech32m (src/bech32.cpp): the checksum as a linear map, encoding and decoding. */
module Bech32 {

  import opened Collections

  /** A five-bit symbol. */
  type Symbol = bv5

  datatype Encoding = BECH32 | BECH32M

  function EncodingConstant(e: Encoding): bv32 {
    if e == BECH32 then 1 else 0x2bc830a3
  }

  // ---------- the checksum ----------

  function Xor(a: bv32, b: bv32): bv32 { a ^ b }

  /** `if (c0 & bit) c ^= k`. */
  function XorIf(c: bv32, c0: bv32, bit: bv32, k: bv32): bv32 {
    if c0 & bit != 0 then Xor(c, k) else c
  }

  function Lead(c: bv32): bv32 { c >> 25 }

  function Moved(c: bv32): bv32 { (c & 0x1ffffff) << 5 }

  function Wide(v: Symbol): bv32 { v as bv32 }

  /** One turn of the loop of `PolyMod`. */
  function Step(c: bv32, v: Symbol): bv32 {
    var c0 := Lead(c);
    var c1 := XorIf(Xor(Moved(c), Wide(v)), c0, 1, 0x3b6a57b2);
    var c2 := XorIf(c1, c0, 2, 0x26508e6d);
    var c3 := XorIf(c2, c0, 4, 0x1ea119fa);
    var c4 := XorIf(c3, c0, 8, 0x3d4233dd);
    XorIf(c4, c0, 16, 0x2a1462b3)
  }

  /** The loop, started at `c`. */
  function Poly(c: bv32, v: seq<Symbol>): bv32 {
    if v == [] then c else Step(Poly(c, v[..|v| - 1]), v[|v| - 1])
  }

  function PolyMod(v: seq<Symbol>): bv32 { Poly(1, v) }

  // ---------- linearity ----------

  lemma XorZero(k: bv32)
    ensures Xor(k, k) == 0 && Xor(k, 0) == k && Xor(0, k) == k
  {
  }

  lemma Commute(a: bv32, b: bv32)
    ensures Xor(a, b) == Xor(b, a)
  {
  }

  lemma Associate(a: bv32, b: bv32, c: bv32)
    ensures Xor(Xor(a, b), c) == Xor(a, Xor(b, c))
  {
  }

  lemma Pairwise(a: bv32, b: bv32, c: bv32, d: bv32)
    ensures Xor(Xor(a, b), Xor(c, d)) == Xor(Xor(a, c), Xor(b, d))
  {
    hide Xor;
    Associate(a, b, Xor(c, d));
    Associate(b, c, d);
    Commute(b, c);
    Associate(c, b, d);
    Associate(a, c, Xor(b, d));
  }

  lemma OneBit(x: bv32, y: bv32, bit: bv32)
    requires bit == 1 || bit == 2 || bit == 4 || bit == 8 || bit == 16
    ensures (x & bit == 0 || x & bit == bit) && Xor(x, y) & bit == Xor(x & bit, y & bit)
  {
  }

  /** A conditional exclusive or is linear in the condition and in the value. */
  lemma XorIfLinear(c: bv32, d: bv32, x: bv32, y: bv32, bit: bv32, k: bv32)
    requires bit == 1 || bit == 2 || bit == 4 || bit == 8 || bit == 16
    ensures XorIf(Xor(c, d), Xor(x, y), bit, k) == Xor(XorIf(c, x, bit, k), XorIf(d, y, bit, k))
  {
    OneBit(x, y, bit);
    OneBit(y, x, bit);
    XorZero(k);
    XorZero(bit);
    XorZero(0);
    XorZero(c);
    XorZero(d);
    XorZero(Xor(c, d));
    Pairwise(c, k, d, k);
    Pairwise(c, k, d, 0);
    Pairwise(c, 0, d, k);
    hide Xor;
    if x & bit == 0 {
      if y & bit == 0 {} else {}
    } else {
      if y & bit == 0 {} else {}
    }
  }

  lemma PartsLinear(c: bv32, d: bv32, v: Symbol, w: Symbol)
    ensures Moved(Xor(c, d)) == Xor(Moved(c), Moved(d)) && Wide(v ^ w) == Xor(Wide(v), Wide(w))
    ensures Lead(Xor(c, d)) == Xor(Lead(c), Lead(d))
  {
  }

  /** A step of the checksum is linear over exclusive or. */
  lemma StepLinear(c: bv32, d: bv32, v: Symbol, w: Symbol)
    ensures Step(Xor(c, d), v ^ w) == Xor(Step(c, v), Step(d, w))
  {
    PartsLinear(c, d, v, w);
    hide Xor, XorIf, Lead, Moved, Wide;
    Pairwise(Moved(c), Moved(d), Wide(v), Wide(w));
    var x, y := Lead(c), Lead(d);
    var c0, d0 := Xor(Moved(c), Wide(v)), Xor(Moved(d), Wide(w));
    XorIfLinear(c0, d0, x, y, 1, 0x3b6a57b2);
    var c1, d1 := XorIf(c0, x, 1, 0x3b6a57b2), XorIf(d0, y, 1, 0x3b6a57b2);
    XorIfLinear(c1, d1, x, y, 2, 0x26508e6d);
    var c2, d2 := XorIf(c1, x, 2, 0x26508e6d), XorIf(d1, y, 2, 0x26508e6d);
    XorIfLinear(c2, d2, x, y, 4, 0x1ea119fa);
    var c3, d3 := XorIf(c2, x, 4, 0x1ea119fa), XorIf(d2, y, 4, 0x1ea119fa);
    XorIfLinear(c3, d3, x, y, 8, 0x3d4233dd);
    var c4, d4 := XorIf(c3, x, 8, 0x3d4233dd), XorIf(d3, y, 8, 0x3d4233dd);
    XorIfLinear(c4, d4, x, y, 16, 0x2a1462b3);
  }

  lemma StepBound(c: bv32, v: Symbol)
    requires c < 0x40000000
    ensures Step(c, v) < 0x40000000
  {
  }

  function Low(c: bv32): bv32 { c & 31 }

  lemma LowXorIf(c: bv32, c0: bv32, bit: bv32, k: bv32)
    ensures Low(XorIf(c, c0, bit, k)) == if c0 & bit != 0 then Low(c) ^ Low(k) else Low(c)
  {
  }

  /** The lowest symbols of the constants are independent: only a zero leading symbol adds up to zero. */
  lemma Independent(c0: bv32)
    requires c0 < 32
    requires var l1 := if c0 & 1 != 0 then 0x12 as bv32 else 0;
             var l2 := if c0 & 2 != 0 then l1 ^ 0x0d else l1;
             var l3 := if c0 & 4 != 0 then l2 ^ 0x1a else l2;
             var l4 := if c0 & 8 != 0 then l3 ^ 0x1d else l3;
             (if c0 & 16 != 0 then l4 ^ 0x13 else l4) == 0
    ensures c0 == 0
  {
  }

  lemma LowMoved(d: bv32)
    ensures Low(Xor(Moved(d), Wide(0))) == 0 && (d < 0x40000000 ==> Lead(d) < 32)
  {
  }

  lemma MovedInjective(d: bv32)
    requires d < 0x40000000 && Lead(d) == 0 && Xor(Moved(d), Wide(0)) == 0
    ensures d == 0
  {
  }

  /** A step with a zero symbol loses nothing: the generator has a constant term. */
  lemma StepInjective(d: bv32)
    requires d < 0x40000000 && Step(d, 0) == 0
    ensures d == 0
  {
    LowMoved(d);
    hide Xor, Lead, Moved, Wide;
    var c0, c := Lead(d), Xor(Moved(d), Wide(0));
    LeadIsZero(c, c0);
    MovedInjective(d) by { NoTaps(c, c0); }
  }

  function Tapped(c: bv32, c0: bv32): bv32 {
    XorIf(XorIf(XorIf(XorIf(XorIf(c, c0, 1, 0x3b6a57b2), c0, 2, 0x26508e6d), c0, 4, 0x1ea119fa), c0, 8, 0x3d4233dd),
          c0, 16, 0x2a1462b3)
  }

  lemma LeadIsZero(c: bv32, c0: bv32)
    requires Low(c) == 0 && c0 < 32 && Tapped(c, c0) == 0
    ensures c0 == 0
  {
    hide XorIf;
    LowXorIf(c, c0, 1, 0x3b6a57b2);
    var c1 := XorIf(c, c0, 1, 0x3b6a57b2);
    LowXorIf(c1, c0, 2, 0x26508e6d);
    var c2 := XorIf(c1, c0, 2, 0x26508e6d);
    LowXorIf(c2, c0, 4, 0x1ea119fa);
    var c3 := XorIf(c2, c0, 4, 0x1ea119fa);
    LowXorIf(c3, c0, 8, 0x3d4233dd);
    var c4 := XorIf(c3, c0, 8, 0x3d4233dd);
    LowXorIf(c4, c0, 16, 0x2a1462b3);
    Independent(c0);
  }

  lemma NoTaps(c: bv32, c0: bv32)
    requires c0 == 0
    ensures Tapped(c, c0) == c
  {
    hide Xor;
  }

  // ---------- sequences ----------

  function XorAll(v: seq<Symbol>, w: seq<Symbol>): seq<Symbol>
    requires |v| == |w|
  {
    seq(|v|, i requires 0 <= i < |v| => v[i] ^ w[i])
  }

  function Zeros(n: nat): seq<Symbol> { seq(n, _ => 0) }

  lemma {:induction false} PolyLinear(c: bv32, d: bv32, v: seq<Symbol>, w: seq<Symbol>)
    requires |v| == |w|
    ensures Poly(Xor(c, d), XorAll(v, w)) == Xor(Poly(c, v), Poly(d, w))
  {
    hide Xor, Step;
    if v != [] {
      var n := |v| - 1;
      PolyLinear(c, d, v[..n], w[..n]);
      StepLinear(Poly(c, v[..n]), Poly(d, w[..n]), v[n], w[n]);
      assert XorAll(v, w)[..n] == XorAll(v[..n], w[..n]);
    }
  }

  lemma {:induction false} PolyConcat(c: bv32, a: seq<Symbol>, b: seq<Symbol>)
    ensures Poly(c, a + b) == Poly(Poly(c, a), b)
  {
    hide Step;
    if b == [] {
      assert a + b == a;
    } else {
      var n := |b| - 1;
      PolyConcat(c, a, b[..n]);
      assert (a + b)[..|a + b| - 1] == a + b[..n];
    }
  }

  lemma {:induction false} PolyBound(c: bv32, v: seq<Symbol>)
    requires c < 0x40000000
    ensures Poly(c, v) < 0x40000000
  {
    hide Step;
    if v != [] {
      PolyBound(c, v[..|v| - 1]);
      StepBound(Poly(c, v[..|v| - 1]), v[|v| - 1]);
    }
  }

  /** Zeros after a difference never cancel it. */
  lemma {:induction false} ZerosKeep(d: bv32, n: nat)
    requires d < 0x40000000 && d != 0
    ensures Poly(d, Zeros(n)) != 0
  {
    hide Step;
    if n > 0 {
      ZerosKeep(d, n - 1);
      PolyBound(d, Zeros(n - 1));
      assert Zeros(n)[..n - 1] == Zeros(n - 1);
      if Step(Poly(d, Zeros(n - 1)), 0) == 0 { StepInjective(Poly(d, Zeros(n - 1))); }
    }
  }

  // ---------- six symbols ----------

  predicate Fits(c: bv32, n: nat) {
    if n == 0 then c == 0 else if n == 1 then c < 0x20 else if n == 2 then c < 0x400 else if n == 3 then c < 0x8000
    else if n == 4 then c < 0x100000 else if n == 5 then c < 0x2000000 else c < 0x40000000
  }

  function Pushed(c: bv32, v: Symbol): bv32 { (c << 5) ^ (v as bv32) }

  function LastOf(m: bv32): Symbol { (m & 31) as Symbol }

  function Dropped(m: bv32): bv32 { m >> 5 }

  lemma NoLead(c: bv32)
    requires Fits(c, 5)
    ensures Lead(c) == 0 && Moved(c) == c << 5
  {
  }

  /** Below two to the 25 a step just appends the symbol. */
  lemma Append(c: bv32, v: Symbol)
    requires Fits(c, 5)
    ensures Step(c, v) == Pushed(c, v)
  {
    NoLead(c);
    assert Pushed(c, v) == Xor(c << 5, Wide(v));
    hide Lead, Moved, Xor, Wide, Fits, XorIf, Pushed;
    NoTaps(Xor(Moved(c), Wide(v)), Lead(c));
  }

  lemma PushBits(c: bv32, v: Symbol)
    requires c < 0x2000000
    ensures var m := (c << 5) ^ (v as bv32); m >> 5 == c && (m & 31) as Symbol == v
  {
  }

  lemma PushFits(c: bv32, v: Symbol, n: nat)
    requires n < 6 && Fits(c, n)
    ensures c < 0x2000000 && Fits((c << 5) ^ (v as bv32), n + 1)
  {
  }

  lemma PushedIs(c: bv32, v: Symbol, n: nat)
    requires n < 6 && Fits(c, n)
    ensures Fits(c, 5) && Fits(Pushed(c, v), n + 1) && Dropped(Pushed(c, v)) == c && LastOf(Pushed(c, v)) == v
  {
    PushFits(c, v, n);
    PushBits(c, v);
  }

  lemma DropBits(m: bv32)
    ensures ((m >> 5) << 5) ^ (((m & 31) as Symbol) as bv32) == m
  {
  }

  lemma DropFits(m: bv32, n: nat)
    requires n < 6 && Fits(m, n + 1)
    ensures Fits(m >> 5, n) && m >> 5 < 0x2000000
  {
  }

  lemma DroppedIs(m: bv32, n: nat)
    requires n < 6 && Fits(m, n + 1)
    ensures Fits(Dropped(m), n) && Fits(Dropped(m), 5) && Pushed(Dropped(m), LastOf(m)) == m
  {
    DropFits(m, n);
    DropBits(m);
  }

  /** The `n` five-bit groups of a number, highest first. */
  function Groups(m: bv32, n: nat): (g: seq<Symbol>)
    ensures |g| == n
  {
    if n == 0 then [] else Groups(Dropped(m), n - 1) + [LastOf(m)]
  }

  /** Feeding the groups of a checksum to the loop gives that checksum. */
  lemma {:induction false} PolyGroups(m: bv32, n: nat)
    requires n <= 6 && Fits(m, n)
    ensures Poly(0, Groups(m, n)) == m
  {
    if n > 0 {
      DroppedIs(m, n - 1);
      hide Step, Fits, Pushed, LastOf, Dropped;
      PolyGroups(Dropped(m), n - 1);
      Append(Dropped(m), LastOf(m));
      assert Groups(m, n)[..n - 1] == Groups(Dropped(m), n - 1);
    }
  }

  /** The groups of the checksum of up to six symbols are those symbols. */
  lemma {:induction false} GroupsPoly(v: seq<Symbol>)
    requires |v| <= 6
    ensures Fits(Poly(0, v), |v|) && Groups(Poly(0, v), |v|) == v
  {
    if v != [] {
      hide Step, Fits, Pushed, LastOf, Dropped;
      var n := |v| - 1;
      GroupsPoly(v[..n]);
      var c := Poly(0, v[..n]);
      PushedIs(c, v[n], n);
      Append(c, v[n]);
      assert v == v[..n] + [v[n]];
    }
  }

  /** Up to six symbols, not all zero, have a checksum that is not zero. */
  lemma SmallNonzero(v: seq<Symbol>, i: nat)
    requires |v| <= 6 && i < |v| && v[i] != 0
    ensures Poly(0, v) != 0
  {
    GroupsPoly(v);
    hide Poly;
    if Poly(0, v) == 0 { GroupsZero(|v|); }
  }

  lemma {:induction false} GroupsZero(n: nat)
    ensures Groups(0, n) == Zeros(n)
  {
    if n > 0 { GroupsZero(n - 1); }
  }

  /** `mod >> (5 * (5 - i)) & 31`, as the source writes the six groups. */
  lemma GroupsAre(m: bv32)
    ensures Groups(m, 6) == [LastOf(m >> 25), LastOf(m >> 20), LastOf(m >> 15), LastOf(m >> 10), LastOf(m >> 5), LastOf(m)]
  {
    DropsAre(m);
    hide LastOf, Dropped;
    var m1, m2, m3, m4, m5 := m >> 5, m >> 10, m >> 15, m >> 20, m >> 25;
    assert Groups(m5, 1) == [] + [LastOf(m5)];
    assert Groups(m4, 2) == Groups(m5, 1) + [LastOf(m4)];
    assert Groups(m3, 3) == Groups(m4, 2) + [LastOf(m3)];
    assert Groups(m2, 4) == Groups(m3, 3) + [LastOf(m2)];
    assert Groups(m1, 5) == Groups(m2, 4) + [LastOf(m1)];
    assert Groups(m, 6) == Groups(m1, 5) + [LastOf(m)];
  }

  lemma DropsAre(m: bv32)
    ensures Dropped(m) == m >> 5 && Dropped(m >> 5) == m >> 10 && Dropped(m >> 10) == m >> 15
    ensures Dropped(m >> 15) == m >> 20 && Dropped(m >> 20) == m >> 25
  {
  }
}
