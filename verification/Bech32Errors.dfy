/**
  The checksum detects up to three errors (src/bech32.cpp:49-54). A string of symbols that leaves the
  checksum alone is a polynomial with three consecutive powers of one field element as roots, which
  a polynomial with at most three terms within 1023 places cannot have.
 */
module Bech32Errors {

  import opened Collections
  import opened Bech32
  import C = Bech32Codec
  import F = Bech32Field

  type Field = F.Field

  // ---------- symbols as elements of the field ----------

  function If(v: Symbol, bit: Symbol, m: Field): Field { if v & bit != 0 then m else 0 }

  function Embed(v: Symbol): Field {
    F.Add(F.Add(F.Add(If(v, 1, 0x1), If(v, 2, 0xe)), F.Add(If(v, 4, 0x54), If(v, 8, 0x358))), If(v, 16, 0xbf))
  }

  lemma EmbedAdd(v: Symbol, w: Symbol)
    ensures Embed(v ^ w) == F.Add(Embed(v), Embed(w))
  {
  }

  lemma EmbedZero(v: Symbol)
    ensures Embed(v) == 0 <==> v == 0
  {
  }

  // ---------- the state of the checksum, evaluated at a root ----------

  /** The polynomial of the last `n` symbols of a state, evaluated at the `r`-th power. */
  function Image(r: nat, c: bv32, n: nat): Field {
    if n == 0 then 0 else F.Add(F.Turn(r, Image(r, Dropped(c), n - 1)), Embed(LastOf(c)))
  }

  lemma PartsXor(a: bv32, b: bv32)
    ensures Dropped(Xor(a, b)) == Xor(Dropped(a), Dropped(b)) && LastOf(Xor(a, b)) == LastOf(a) ^ LastOf(b)
  {
  }

  lemma {:induction false} ImageAdd(r: nat, a: bv32, b: bv32, n: nat)
    ensures Image(r, Xor(a, b), n) == F.Add(Image(r, a, n), Image(r, b, n))
  {
    if n == 0 {
      F.AddZero(0);
    } else {
      PartsXor(a, b);
      EmbedAdd(LastOf(a), LastOf(b));
      hide Xor, Dropped, LastOf, Embed, F.Add, F.Turn;
      var x, y := Image(r, Dropped(a), n - 1), Image(r, Dropped(b), n - 1);
      ImageAdd(r, Dropped(a), Dropped(b), n - 1);
      F.TurnAdd(r, x, y);
      F.AddPairs(F.Turn(r, x), F.Turn(r, y), Embed(LastOf(a)), Embed(LastOf(b)));
    }
  }

  lemma NothingLeft()
    ensures LastOf(0) == 0 && Dropped(0) == 0 && Embed(0) == 0
  {
  }

  lemma DropOne(c: bv32, n: nat)
    requires 0 < n < 6 && Fits(c, n)
    ensures Fits(Dropped(c), n - 1)
  {
  }

  /** A leading symbol that is zero adds nothing. */
  lemma {:induction false} ImageMore(r: nat, c: bv32, n: nat)
    requires n < 6 && Fits(c, n)
    ensures Image(r, c, n + 1) == Image(r, c, n)
  {
    NothingLeft();
    F.TurnZero(r, 0);
    F.AddZero(0);
    if n > 0 {
      DropOne(c, n);
      hide Fits, Dropped, LastOf, Embed, F.Add, F.Turn;
      ImageMore(r, Dropped(c), n - 1);
    }
  }

  // ---------- a step is a turn ----------

  /** The step with a zero symbol multiplies the polynomial by the root. */
  ghost predicate Turns(r: nat, c: bv32) {
    Image(r, Step(c, 0), 6) == F.Turn(r, Image(r, c, 6))
  }

  lemma TurnsXor(r: nat, a: bv32, b: bv32)
    requires Turns(r, a) && Turns(r, b)
    ensures Turns(r, Xor(a, b))
  {
    assert (0 as Symbol) ^ 0 == 0;
    hide Xor, Step, Image, F.Add, F.Turn;
    StepLinear(a, b, 0, 0);
    ImageAdd(r, a, b, 6);
    ImageAdd(r, Step(a, 0), Step(b, 0), 6);
    F.TurnAdd(r, Image(r, a, 6), Image(r, b, 6));
  }

  lemma PushedImage(r: nat, c: bv32, v: Symbol)
    requires Fits(c, 5)
    ensures Image(r, Step(c, v), 6) == F.Add(F.Turn(r, Image(r, c, 6)), Embed(v))
  {
    Append(c, v);
    PushedIs(c, v, 5);
    ImageMore(r, c, 5);
    hide Fits, Step, Pushed, Dropped, LastOf, Embed, F.Add, F.Turn;
  }

  lemma LowTurns(r: nat, c: bv32)
    requires Fits(c, 5)
    ensures Turns(r, c)
  {
    PushedImage(r, c, 0);
    NothingLeft();
    hide Fits, Step, Image, Embed, F.Add, F.Turn;
    F.AddZero(F.Turn(r, Image(r, c, 6)));
  }

  /** The same with the root at hand as an element. */
  function Value(m: Field, c: bv32, n: nat): Field {
    if n == 0 then 0 else F.Add(F.Mul(Value(m, Dropped(c), n - 1), m), Embed(LastOf(c)))
  }

  lemma {:induction false} ImageValue(r: nat, m: Field, c: bv32, n: nat)
    requires F.Power(r, m)
    ensures Image(r, c, n) == Value(m, c, n)
    decreases n
  {
    hide F.Power, F.Mul, F.Turn, F.Add, Dropped, LastOf, Embed;
    if n > 0 {
      ImageValue(r, m, Dropped(c), n - 1);
      F.TurnBy(r, m, Image(r, Dropped(c), n - 1));
    }
  }

  /** The bits of the leading symbol, and the constants of the loop that they bring in. */
  lemma TopSteps()
    ensures Step(0x2000000, 0) == 0x3b6a57b2
    ensures Step(0x4000000, 0) == 0x26508e6d
    ensures Step(0x8000000, 0) == 0x1ea119fa
    ensures Step(0x10000000, 0) == 0x3d4233dd
    ensures Step(0x20000000, 0) == 0x2a1462b3
  {
  }

  /** The evaluation, symbol by symbol. */
  lemma Chain(m: Field, c: bv32, x1: Field, x2: Field, x3: Field, x4: Field, x5: Field, x6: Field)
    requires Next(m, 0, c >> 25, x1) && Next(m, x1, c >> 20, x2) && Next(m, x2, c >> 15, x3)
    requires Next(m, x3, c >> 10, x4) && Next(m, x4, c >> 5, x5) && Next(m, x5, c, x6)
    ensures Value(m, c, 6) == x6
  {
    Drops(c);
    hide F.Mul, F.Add, Dropped, LastOf, Embed;
    assert Value(m, c >> 25, 1) == x1;
    assert Value(m, c >> 20, 2) == x2;
    assert Value(m, c >> 15, 3) == x3;
    assert Value(m, c >> 10, 4) == x4;
    assert Value(m, c >> 5, 5) == x5;
  }

  predicate Next(m: Field, x: Field, c: bv32, y: Field) { F.Add(F.Mul(x, m), Embed(LastOf(c))) == y }

  lemma Drops(c: bv32)
    ensures Dropped(c) == c >> 5 && Dropped(c >> 5) == c >> 10 && Dropped(c >> 10) == c >> 15
    ensures Dropped(c >> 15) == c >> 20 && Dropped(c >> 20) == c >> 25
  {
  }

  // The root that is power 24, for each bit of the leading symbol.

  lemma Root24Bit0()
    ensures Value(0x3f0, 0x3b6a57b2, 6) == F.Mul(Value(0x3f0, 0x2000000, 6), 0x3f0)
  {
    Chain(0x3f0, 0x3b6a57b2, 0x3b2, 0x7d, 0x7d, 0x7c, 0xd4, 0x2ba);
    Chain(0x3f0, 0x2000000, 0x1, 0x3f0, 0x24d, 0x2b9, 0xb9, 0x9);
  }

  lemma Root24Bit1()
    ensures Value(0x3f0, 0x26508e6d, 6) == F.Mul(Value(0x3f0, 0x4000000, 6), 0x3f0)
  {
    Chain(0x3f0, 0x26508e6d, 0xb0, 0x2e6, 0x2e6, 0x2e8, 0x17b, 0x1a5);
    Chain(0x3f0, 0x4000000, 0xe, 0x32c, 0x10c, 0x1b7, 0x37d, 0x7e);
  }

  lemma Root24Bit2()
    ensures Value(0x3f0, 0x1ea119fa, 6) == F.Mul(Value(0x3f0, 0x8000000, 6), 0x3f0)
  {
    Chain(0x3f0, 0x1ea119fa, 0x303, 0x28d, 0x28d, 0x2d9, 0x3a7, 0x2b0);
    Chain(0x3f0, 0x8000000, 0x54, 0x227, 0x12d, 0x24c, 0x149, 0x2f4);
  }

  lemma Root24Bit3()
    ensures Value(0x3f0, 0x3d4233dd, 6) == F.Mul(Value(0x3f0, 0x10000000, 6), 0x3f0)
  {
    Chain(0x3f0, 0x3d4233dd, 0x3bd, 0xaf, 0xaf, 0x3f7, 0x66, 0x1c9);
    Chain(0x3f0, 0x10000000, 0x358, 0x320, 0xe3, 0x102, 0x29b, 0x271);
  }

  lemma Root24Bit4()
    ensures Value(0x3f0, 0x2a1462b3, 6) == F.Mul(Value(0x3f0, 0x20000000, 6), 0x3f0)
  {
    Chain(0x3f0, 0x2a1462b3, 0xea, 0x3b9, 0x3b9, 0x306, 0x264, 0xb8);
    Chain(0x3f0, 0x20000000, 0xbf, 0x26f, 0x71, 0x179, 0x6b, 0x64);
  }

  // The root that is power 25, for each bit of the leading symbol.

  lemma Root25Bit0()
    ensures Value(0x2c3, 0x3b6a57b2, 6) == F.Mul(Value(0x2c3, 0x2000000, 6), 0x2c3)
  {
    Chain(0x2c3, 0x3b6a57b2, 0x3b2, 0x1d5, 0x3ad, 0x69, 0x3df, 0xa6);
    Chain(0x2c3, 0x2000000, 0x1, 0x2c3, 0x372, 0x144, 0x1d6, 0x120);
  }

  lemma Root25Bit1()
    ensures Value(0x2c3, 0x26508e6d, 6) == F.Mul(Value(0x2c3, 0x4000000, 6), 0x2c3)
  {
    Chain(0x2c3, 0x26508e6d, 0xb0, 0x10, 0xa, 0x23e, 0x2b6, 0x3c7);
    Chain(0x2c3, 0x4000000, 0xe, 0x37b, 0x113, 0x2dd, 0x2, 0xa5);
  }

  lemma Root25Bit2()
    ensures Value(0x2c3, 0x1ea119fa, 6) == F.Mul(Value(0x2c3, 0x8000000, 6), 0x2c3)
  {
    Chain(0x2c3, 0x1ea119fa, 0x303, 0xe0, 0x6c, 0x3be, 0x1ed, 0x226);
    Chain(0x2c3, 0x8000000, 0x54, 0x16d, 0x197, 0x3cf, 0x1c, 0x3d5);
  }

  lemma Root25Bit3()
    ensures Value(0x2c3, 0x3d4233dd, 6) == F.Mul(Value(0x2c3, 0x10000000, 6), 0x2c3)
  {
    Chain(0x2c3, 0x3d4233dd, 0x3bd, 0x63, 0x208, 0xf8, 0x140, 0x32e);
    Chain(0x2c3, 0x10000000, 0x358, 0x363, 0x38c, 0x256, 0xa8, 0x2da);
  }

  lemma Root25Bit4()
    ensures Value(0x2c3, 0x2a1462b3, 6) == F.Mul(Value(0x2c3, 0x20000000, 6), 0x2c3)
  {
    Chain(0x2c3, 0x2a1462b3, 0xea, 0x252, 0x2ba, 0xf3, 0x2e5, 0x23b);
    Chain(0x2c3, 0x20000000, 0xbf, 0x1fd, 0x1c4, 0x18e, 0x393, 0x3e5);
  }

  // The root that is power 26, for each bit of the leading symbol.

  lemma Root26Bit0()
    ensures Value(0xa5, 0x3b6a57b2, 6) == F.Mul(Value(0xa5, 0x2000000, 6), 0xa5)
  {
    Chain(0xa5, 0x3b6a57b2, 0x3b2, 0x285, 0xaa, 0x137, 0x193, 0x98);
    Chain(0xa5, 0x2000000, 0x1, 0xa5, 0x2ad, 0x66, 0x3aa, 0x27d);
  }

  lemma Root26Bit1()
    ensures Value(0xa5, 0x26508e6d, 6) == F.Mul(Value(0xa5, 0x4000000, 6), 0xa5)
  {
    Chain(0xa5, 0x26508e6d, 0xb0, 0xdf, 0x38f, 0x6f, 0x3b4, 0x2b3);
    Chain(0xa5, 0x4000000, 0xe, 0x3d5, 0x16f, 0x264, 0x20, 0x2c);
  }

  lemma Root26Bit2()
    ensures Value(0xa5, 0x1ea119fa, 6) == F.Mul(Value(0xa5, 0x8000000, 6), 0xa5)
  {
    Chain(0xa5, 0x1ea119fa, 0x303, 0x119, 0x1d6, 0x21a, 0x94, 0x1db);
    Chain(0xa5, 0x8000000, 0x54, 0x2da, 0x37f, 0xb2, 0x1c0, 0x188);
  }

  lemma Root26Bit3()
    ensures Value(0xa5, 0x3d4233dd, 6) == F.Mul(Value(0xa5, 0x10000000, 6), 0xa5)
  {
    Chain(0xa5, 0x3d4233dd, 0x3bd, 0x1fb, 0x2, 0x246, 0x2fb, 0x44);
    Chain(0xa5, 0x10000000, 0x358, 0x3e5, 0x155, 0x31f, 0xc6, 0x336);
  }

  lemma Root26Bit4()
    ensures Value(0xa5, 0x2a1462b3, 6) == F.Mul(Value(0xa5, 0x20000000, 6), 0xa5)
  {
    Chain(0xa5, 0x2a1462b3, 0xea, 0x184, 0x1c, 0x16e, 0x22b, 0x3b8);
    Chain(0xa5, 0x20000000, 0xbf, 0x3fa, 0x233, 0x315, 0x187, 0x2ab);
  }

  predicate IsRoot(r: nat) { 24 <= r <= 26 }

  function RootValue(r: nat): Field { if r == 24 then 0x3f0 else if r == 25 then 0x2c3 else 0xa5 }

  lemma RootPower(r: nat)
    requires IsRoot(r)
    ensures F.Power(r, RootValue(r))
  {
    F.Powers();
    hide F.Power;
  }

  lemma BitTurns(r: nat, b: bv32, k: bv32)
    requires IsRoot(r) && Step(b, 0) == k && Value(RootValue(r), k, 6) == F.Mul(Value(RootValue(r), b, 6), RootValue(r))
    ensures Turns(r, b)
  {
    RootPower(r);
    hide IsRoot, RootValue, Step, Value, F.Mul, F.Turn, F.Power, Image;
    ImageValue(r, RootValue(r), b, 6);
    ImageValue(r, RootValue(r), k, 6);
    F.TurnBy(r, RootValue(r), Image(r, b, 6));
  }

  lemma Bit0Turns(r: nat)
    requires IsRoot(r)
    ensures Turns(r, 0x2000000)
  {
    TopSteps();
    hide Step, Value, F.Mul, Turns;
    if r == 24 { Root24Bit0(); } else if r == 25 { Root25Bit0(); } else { Root26Bit0(); }
    BitTurns(r, 0x2000000, 0x3b6a57b2);
  }

  lemma Bit1Turns(r: nat)
    requires IsRoot(r)
    ensures Turns(r, 0x4000000)
  {
    TopSteps();
    hide Step, Value, F.Mul, Turns;
    if r == 24 { Root24Bit1(); } else if r == 25 { Root25Bit1(); } else { Root26Bit1(); }
    BitTurns(r, 0x4000000, 0x26508e6d);
  }

  lemma Bit2Turns(r: nat)
    requires IsRoot(r)
    ensures Turns(r, 0x8000000)
  {
    TopSteps();
    hide Step, Value, F.Mul, Turns;
    if r == 24 { Root24Bit2(); } else if r == 25 { Root25Bit2(); } else { Root26Bit2(); }
    BitTurns(r, 0x8000000, 0x1ea119fa);
  }

  lemma Bit3Turns(r: nat)
    requires IsRoot(r)
    ensures Turns(r, 0x10000000)
  {
    TopSteps();
    hide Step, Value, F.Mul, Turns;
    if r == 24 { Root24Bit3(); } else if r == 25 { Root25Bit3(); } else { Root26Bit3(); }
    BitTurns(r, 0x10000000, 0x3d4233dd);
  }

  lemma Bit4Turns(r: nat)
    requires IsRoot(r)
    ensures Turns(r, 0x20000000)
  {
    TopSteps();
    hide Step, Value, F.Mul, Turns;
    if r == 24 { Root24Bit4(); } else if r == 25 { Root25Bit4(); } else { Root26Bit4(); }
    BitTurns(r, 0x20000000, 0x2a1462b3);
  }

  lemma WithoutBit(c: bv32, b: bv32)
    requires b == 0x2000000 || b == 0x4000000 || b == 0x8000000 || b == 0x10000000 || b == 0x20000000
    requires c < 2 * b
    ensures b <= c ==> Xor(c, b) < b && Xor(Xor(c, b), b) == c
  {
  }

  /** The states below `2 * b` turn if those below `b` and `b` itself do. */
  lemma TurnsBelow(r: nat, c: bv32, b: bv32) returns (d: bv32)
    requires b == 0x2000000 || b == 0x4000000 || b == 0x8000000 || b == 0x10000000 || b == 0x20000000
    requires c < 2 * b && Turns(r, b)
    ensures d < b && (Turns(r, d) ==> Turns(r, c))
  {
    WithoutBit(c, b);
    hide Xor, Turns;
    d := if b <= c then Xor(c, b) else c;
    if b <= c && Turns(r, d) { TurnsXor(r, d, b); }
  }

  lemma AllTurn(r: nat, c: bv32)
    requires IsRoot(r) && c < 0x40000000
    ensures Turns(r, c)
  {
    Bit0Turns(r);
    Bit1Turns(r);
    Bit2Turns(r);
    Bit3Turns(r);
    Bit4Turns(r);
    hide Turns, IsRoot;
    var c4 := TurnsBelow(r, c, 0x20000000);
    var c3 := TurnsBelow(r, c4, 0x10000000);
    var c2 := TurnsBelow(r, c3, 0x8000000);
    var c1 := TurnsBelow(r, c2, 0x4000000);
    var c0 := TurnsBelow(r, c1, 0x2000000);
    LowTurns(r, c0);
  }

  /** A step multiplies by the root and adds the symbol. */
  lemma StepImage(r: nat, c: bv32, v: Symbol)
    requires IsRoot(r) && c < 0x40000000
    ensures Image(r, Step(c, v), 6) == F.Add(F.Turn(r, Image(r, c, 6)), Embed(v))
  {
    AllTurn(r, c);
    hide IsRoot, Xor, Step, F.Add, F.Turn, Embed, Image;
    StepApart(c, v);
    ImageAdd(r, Step(c, 0), Step(0, v), 6);
    FirstSymbol(r, v);
  }

  lemma StepApart(c: bv32, v: Symbol)
    ensures Step(c, v) == Xor(Step(c, 0), Step(0, v))
  {
    hide Xor, Step;
    StepLinear(c, 0, 0, v);
    C.ZeroXorOne(v);
    XorZero(c);
  }

  lemma FirstSymbol(r: nat, v: Symbol)
    ensures Image(r, Step(0, v), 6) == Embed(v)
  {
    hide Step, F.Add, F.Turn, Embed, Image;
    PushedImage(r, 0, v);
    ZeroImage(r, 6);
    F.TurnZero(r, 0);
    F.AddZero(Embed(v));
  }

  lemma {:induction false} ZeroImage(r: nat, n: nat)
    ensures Image(r, 0, n) == 0
  {
    NothingLeft();
    F.TurnZero(r, 0);
    F.AddZero(0);
    hide F.Add, F.Turn, Embed, Dropped, LastOf;
    if n > 0 { ZeroImage(r, n - 1); }
  }

  // ---------- strings of symbols ----------

  /** The polynomial of a string of symbols, evaluated at the `r`-th power. */
  function Eval(r: nat, d: seq<Symbol>): Field {
    if d == [] then 0 else F.Add(F.Turn(r, Eval(r, d[..|d| - 1])), Embed(d[|d| - 1]))
  }

  lemma {:induction false} PolyImage(r: nat, d: seq<Symbol>)
    requires IsRoot(r)
    ensures Image(r, Poly(0, d), 6) == Eval(r, d)
  {
    ZeroImage(r, 6);
    hide IsRoot, Image, Step, F.Add, F.Turn, Embed;
    if d != [] {
      var n := |d| - 1;
      PolyImage(r, d[..n]);
      PolyBound(0, d[..n]);
      StepImage(r, Poly(0, d[..n]), d[n]);
    }
  }

  /** The term of one place. */
  function Term(r: nat, d: seq<Symbol>, p: nat): Field
    requires p < |d|
  {
    F.Turn(Times(r, |d| - 1 - p), Embed(d[p]))
  }

  function Times(r: nat, k: nat): nat { r * k }

  /** Taking a symbol out takes its term away. */
  lemma {:induction false} EvalWithout(r: nat, d: seq<Symbol>, p: nat)
    requires p < |d|
    ensures Eval(r, d) == F.Add(Eval(r, d[p := 0]), Term(r, d, p))
  {
    NothingLeft();
    var n := |d| - 1;
    var x := F.Turn(r, Eval(r, d[..n]));
    if p == n {
      assert d[p := 0][..n] == d[..n];
      hide F.Add, F.Turn, Embed;
      F.AddZero(x);
      assert Times(r, 0) == 0;
      TurnNone(Embed(d[p]));
    } else {
      assert d[p := 0][..n] == d[..n][p := 0];
      hide F.Add, F.Turn, Embed;
      EvalWithout(r, d[..n], p);
      var y := Eval(r, d[..n][p := 0]);
      F.TurnAdd(r, y, Term(r, d[..n], p));
      F.TurnTurn(r, Times(r, n - 1 - p), Embed(d[p]));
      assert r + Times(r, n - 1 - p) == Times(r, n - p);
      Swap(F.Turn(r, y), Term(r, d, p), Embed(d[n]));
    }
  }

  lemma TurnNone(x: Field)
    ensures F.Turn(0, x) == x
  {
  }

  lemma Swap(x: Field, y: Field, z: Field)
    ensures F.Add(F.Add(x, y), z) == F.Add(F.Add(x, z), y)
  {
  }

  lemma {:induction false} EvalZeros(r: nat, d: seq<Symbol>)
    requires forall i :: 0 <= i < |d| ==> d[i] == 0
    ensures Eval(r, d) == 0
  {
    NothingLeft();
    F.TurnZero(r, 0);
    F.AddZero(0);
    hide F.Add, F.Turn, Embed;
    if d != [] { EvalZeros(r, d[..|d| - 1]); }
  }

  // ---------- three terms do not cancel ----------

  lemma Exchange(u: Field, z: Field, w: Field, t: Field)
    requires F.Add(F.Add(u, z), F.Add(w, t)) == 0
    ensures F.Add(u, w) == F.Add(z, t)
  {
    hide F.Add;
    F.AddPairs(u, z, w, t);
    F.AddSame(F.Add(u, w), F.Add(z, t));
  }

  /** An element that two different numbers of turns take to the same place is zero. */
  lemma SamePlace(i: nat, j: nat, x: Field)
    requires 0 < j - i < 1023 && F.Turn(i, x) == F.Turn(j, x)
    ensures x == 0
  {
    F.TurnTurn(i, j - i, x);
    F.TurnInjective(i, x, F.Turn(j - i, x));
    hide F.Turn;
    assert F.Fixed(j - i, x) by { TurnFixed(j - i, x); }
    F.OnlyZero(j - i, x);
  }

  lemma TurnFixed(n: nat, x: Field)
    ensures F.Fixed(n, x) <==> F.Turn(n, x) == x
  {
  }

  lemma Around(i: nat, k: nat, x: Field)
    ensures F.Turn(i, F.Turn(k, x)) == F.Turn(k, F.Turn(i, x))
  {
    F.TurnTurn(i, k, x);
    F.TurnTurn(k, i, x);
  }

  /** Of the first two equations and their turns only the first two unknowns are left. */
  lemma Reduced(i: nat, j: nat, k: nat, a: Field, b: Field)
    requires var c := F.Add(a, b);
             && F.Add(F.Add(F.Turn(i, a), F.Turn(j, b)), F.Turn(k, c)) == 0
             && F.Add(F.Add(F.Turn(i, F.Turn(i, a)), F.Turn(j, F.Turn(j, b))), F.Turn(k, F.Turn(k, c))) == 0
    ensures var p := F.Add(F.Turn(i, a), F.Turn(k, a)); F.Turn(i, p) == F.Turn(j, p)
  {
    hide F.Add, F.Turn;
    var ai, ak, bj, bk := F.Turn(i, a), F.Turn(k, a), F.Turn(j, b), F.Turn(k, b);
    F.TurnAdd(k, a, b);
    Exchange(ai, bj, ak, bk);
    F.AddPairs(ai, bj, ak, bk);
    var p, q := F.Add(ai, ak), F.Add(bj, bk);
    F.AddSame(p, q);
    F.TurnAdd(k, ak, bk);
    F.TurnAdd(k, ai, ak);
    F.TurnAdd(k, bj, bk);
    F.TurnAdd(i, ai, ak);
    F.TurnAdd(j, bj, bk);
    Around(i, k, a);
    Around(j, k, b);
    var u, z, w, t := F.Turn(k, ai), F.Turn(k, ak), F.Turn(k, bj), F.Turn(k, bk);
    F.AddZero(F.Turn(k, p));
    Exchange(u, z, w, t);
    var x, y := F.Turn(i, ai), F.Turn(j, bj);
    assert F.Add(F.Add(x, y), F.Add(u, w)) == 0;
    F.AddPairs(x, y, u, w);
    F.AddSame(F.Add(x, u), F.Add(y, w));
  }

  lemma Third(a: Field, b: Field, c: Field)
    requires F.Add(F.Add(a, b), c) == 0
    ensures c == F.Add(a, b)
  {
    hide F.Add;
    F.AddSame(F.Add(a, b), c);
  }

  lemma Eliminated(i: nat, j: nat, k: nat, a: Field, b: Field, c: Field)
    requires 0 < j - i < 1023 && 0 < k - i < 1023
    requires F.Add(F.Add(a, b), c) == 0
    requires F.Add(F.Add(F.Turn(i, a), F.Turn(j, b)), F.Turn(k, c)) == 0
    requires F.Add(F.Add(F.Turn(i, F.Turn(i, a)), F.Turn(j, F.Turn(j, b))), F.Turn(k, F.Turn(k, c))) == 0
    ensures a == 0
  {
    hide F.Add, F.Turn;
    Third(a, b, c);
    Reduced(i, j, k, a, b);
    SamePlace(i, j, F.Add(F.Turn(i, a), F.Turn(k, a)));
    F.AddSame(F.Turn(i, a), F.Turn(k, a));
    SamePlace(i, k, a);
  }

  function Three(r: nat, i: nat, a: Field, j: nat, b: Field, k: nat, c: Field): Field {
    F.Add(F.Add(F.Turn(Times(r, i), a), F.Turn(Times(r, j), b)), F.Turn(Times(r, k), c))
  }

  lemma NextTimes(r: nat, i: nat, a: Field)
    ensures F.Turn(Times(r + 1, i), a) == F.Turn(i, F.Turn(Times(r, i), a))
  {
    assert Times(r + 1, i) == i + Times(r, i);
    F.TurnTurn(i, Times(r, i), a);
  }

  /** The polynomial with three terms within 1023 places has not all three roots, unless its lowest term is zero. */
  lemma LowestIsZero(i: nat, a: Field, j: nat, b: Field, k: nat, c: Field)
    requires 0 < j - i < 1023 && 0 < k - i < 1023
    requires Three(24, i, a, j, b, k, c) == 0 && Three(25, i, a, j, b, k, c) == 0 && Three(26, i, a, j, b, k, c) == 0
    ensures a == 0
  {
    hide F.Add, F.Turn, Times;
    NextTimes(24, i, a);
    NextTimes(24, j, b);
    NextTimes(24, k, c);
    NextTimes(25, i, a);
    NextTimes(25, j, b);
    NextTimes(25, k, c);
    Eliminated(i, j, k, F.Turn(Times(24, i), a), F.Turn(Times(24, j), b), F.Turn(Times(24, k), c));
    F.TurnZero(Times(24, i), a);
  }

  // ---------- errors ----------

  lemma ThreeTerms(r: nat, d: seq<Symbol>, p: nat, q: nat, s: nat)
    requires s <= p < |d| && q <= p
    requires forall t :: 0 <= t < |d| && t != p && t != q && t != s ==> d[t] == 0
    ensures var d1 := d[p := 0]; var d2 := d1[q := 0];
            Eval(r, d) == F.Add(F.Add(Term(r, d, p), Term(r, d1, q)), Term(r, d2, s))
  {
    var d1 := d[p := 0];
    var d2 := d1[q := 0];
    hide F.Add, Term, Eval;
    EvalWithout(r, d, p);
    EvalWithout(r, d1, q);
    EvalWithout(r, d2, s);
    EvalZeros(r, d2[s := 0]);
    F.AddZero(Term(r, d2, s));
    Reverse(Term(r, d, p), Term(r, d1, q), Term(r, d2, s));
  }

  lemma Reverse(x: Field, y: Field, z: Field)
    ensures F.Add(F.Add(z, y), x) == F.Add(F.Add(x, y), z)
  {
  }

  lemma AnyTurn(m: nat, n: nat, x: Field)
    requires m == n || x == 0
    ensures F.Turn(m, x) == F.Turn(n, x)
  {
    F.TurnZero(m, x);
    F.TurnZero(n, x);
  }

  /** The exponent of a place, or any other one for a place that is not needed. */
  function Exponent(n: nat, p: nat, q: nat): nat
    requires q <= p <= n
  {
    if q < p then n - q else n - p + 1
  }

  function At(d: seq<Symbol>, p: nat): Field
    requires p < |d|
  {
    Embed(d[p])
  }

  lemma TermAt(r: nat, d: seq<Symbol>, p: nat, q: nat)
    requires q <= p < |d| && (q == p ==> d[q] == 0)
    ensures Term(r, d, q) == F.Turn(Times(r, Exponent(|d| - 1, p, q)), At(d, q))
  {
    NothingLeft();
    hide Embed, F.Turn, Times;
    AnyTurn(Times(r, |d| - 1 - q), Times(r, Exponent(|d| - 1, p, q)), Embed(d[q]));
  }

  lemma NoValue(r: nat, d: seq<Symbol>)
    requires IsRoot(r) && Poly(0, d) == 0
    ensures Eval(r, d) == 0
  {
    hide IsRoot, Poly, Eval, Image;
    PolyImage(r, d);
    ZeroImage(r, 6);
  }

  /** If the checksum is left alone the three terms cancel, at every root. */
  lemma TermsCancel(r: nat, d: seq<Symbol>, d1: seq<Symbol>, d2: seq<Symbol>, p: nat, q: nat, s: nat)
    requires IsRoot(r) && Poly(0, d) == 0 && s <= p < |d| && q <= p && d1 == d[p := 0] && d2 == d1[q := 0]
    requires forall t :: 0 <= t < |d| && t != p && t != q && t != s ==> d[t] == 0
    ensures var n := |d| - 1;
            Three(r, n - p, At(d, p), Exponent(n, p, q), At(d1, q), Exponent(n, p, s), At(d2, s)) == 0
  {
    hide IsRoot, Poly, Embed, F.Add, F.Turn, Eval, Times, Exponent;
    NoValue(r, d);
    ThreeTerms(r, d, p, q, s);
    TermAt(r, d1, p, q);
    TermAt(r, d2, p, s);
  }

  /** At most three symbols other than zero within 1023 places change the checksum. */
  lemma Noticed(d: seq<Symbol>, p: nat, q: nat, s: nat)
    requires s <= p < |d| && q <= p && p - q < 1023 && p - s < 1023 && d[p] != 0
    requires forall t :: 0 <= t < |d| && t != p && t != q && t != s ==> d[t] == 0
    ensures Poly(0, d) != 0
  {
    if Poly(0, d) == 0 {
      LastIsZero(d, d[p := 0], d[p := 0][q := 0], p, q, s);
    }
  }

  lemma LastIsZero(d: seq<Symbol>, d1: seq<Symbol>, d2: seq<Symbol>, p: nat, q: nat, s: nat)
    requires s <= p < |d| && q <= p && p - q < 1023 && p - s < 1023
    requires Poly(0, d) == 0 && d1 == d[p := 0] && d2 == d1[q := 0]
    requires forall t :: 0 <= t < |d| && t != p && t != q && t != s ==> d[t] == 0
    ensures d[p] == 0
  {
    EmbedZero(d[p]);
    hide Poly, Embed, Three;
    var n := |d| - 1;
    var a, j, b, k, c := At(d, p), Exponent(n, p, q), At(d1, q), Exponent(n, p, s), At(d2, s);
    TermsCancel(24, d, d1, d2, p, q, s);
    TermsCancel(25, d, d1, d2, p, q, s);
    TermsCancel(26, d, d1, d2, p, q, s);
    LowestIsZero(n - p, a, j, b, k, c);
  }

  /** Where two strings differ. */
  function Wrong(v: seq<Symbol>, w: seq<Symbol>): set<nat>
    requires |v| == |w|
  {
    set i: nat | i < |v| && v[i] != w[i]
  }

  lemma {:induction false} Last(s: set<nat>) returns (p: nat)
    requires s != {}
    ensures p in s && forall q :: q in s ==> q <= p
    decreases |s|
  {
    var x :| x in s;
    p := x;
    if s != {x} {
      var y := Last(s - {x});
      p := if x < y then y else x;
      forall q | q in s ensures q <= p { assert q == x || q in s - {x}; }
    }
  }

  /** The last of at most three, and two that cover the others. */
  lemma Places(s: set<nat>) returns (p: nat, q: nat, t: nat)
    requires s != {} && |s| <= 3
    ensures p in s && q in s && t in s && q <= p && t <= p && s == {p, q, t}
  {
    p := Last(s);
    var rest := s - {p};
    q, t := p, p;
    if rest != {} {
      q :| q in rest;
      var other := rest - {q};
      if other != {} {
        t :| t in other;
        assert |other - {t}| == 0;
      }
    }
  }

  /** Up to three wrong symbols within 1023 consecutive ones lead to another state, wherever the loop starts. */
  lemma FewErrorsNoticed(c: bv32, v: seq<Symbol>, w: seq<Symbol>)
    requires |v| == |w| && v != w && |Wrong(v, w)| <= 3
    requires forall i, j :: i in Wrong(v, w) && j in Wrong(v, w) ==> j - i < 1023
    ensures Poly(c, v) != Poly(c, w)
  {
    var i :| 0 <= i < |v| && v[i] != w[i];
    assert i in Wrong(v, w);
    var p, q, s := Places(Wrong(v, w));
    var d := XorAll(v, w);
    C.XorSymbols(v[p], w[p]);
    forall t | 0 <= t < |d| && t != p && t != q && t != s ensures d[t] == 0 {
      assert t !in Wrong(v, w);
      C.ZeroXorOne(v[t]);
    }
    Noticed(d, p, q, s);
    hide Xor, Poly;
    PolyLinear(c, c, v, w);
    XorZero(c);
    XorZero(Poly(c, v));
  }

  /**
    Up to three wrong symbols within 1023 consecutive ones are always detected: no two data parts
    under one prefix that differ so little both verify under the same encoding.
   */
  lemma ThreeErrorsDetected(e: Encoding, hrp: string, v: seq<Symbol>, w: seq<Symbol>)
    requires |v| == |w| && v != w && |Wrong(v, w)| <= 3
    requires forall i, j :: i in Wrong(v, w) && j in Wrong(v, w) ==> j - i < 1023
    requires C.VerifyChecksum(hrp, v) == Some(e)
    ensures C.VerifyChecksum(hrp, w) != Some(e)
  {
    C.VerifyIs(hrp, v, e);
    C.VerifyIs(hrp, w, e);
    hide Xor, Poly, EncodingConstant, C.ExpandHRP, C.VerifyChecksum;
    var c := Poly(1, C.ExpandHRP(hrp));
    FewErrorsNoticed(c, v, w);
    PolyConcat(1, C.ExpandHRP(hrp), v);
    PolyConcat(1, C.ExpandHRP(hrp), w);
  }

  // ---------- errors in the prefix ----------

  /** The two symbols made of a character determine it. */
  lemma TwoSymbols(a: char, b: char)
    requires a as int < 256 && b as int < 256 && C.High(a) == C.High(b) && C.Five(a) == C.Five(b)
    ensures a == b
  {
    SymbolIs(a as int % 32, b as int % 32);
    SymbolIs(a as int / 32, b as int / 32);
  }

  lemma SymbolIs(a: int, b: int)
    requires 0 <= a < 32 && 0 <= b < 32 && a as Symbol == b as Symbol
    ensures a == b
  {
    assert (a as Symbol) as int == a && (b as Symbol) as int == b;
  }

  /** Where two whole strings differ if their prefixes do at most at `i` and their data parts at most at `j`. */
  lemma WrongPlaces(hrp: string, hrp': string, v: seq<Symbol>, w: seq<Symbol>, i: nat, j: nat)
    requires |hrp| == |hrp'| && |v| == |w|
    requires forall k :: 0 <= k < |hrp| && k != i ==> hrp[k] == hrp'[k]
    requires forall k :: 0 <= k < |v| && k != j ==> v[k] == w[k]
    ensures var x, y := C.ExpandHRP(hrp) + v, C.ExpandHRP(hrp') + w;
            |x| == |y| && Wrong(x, y) <= {i, |hrp| + 1 + i, 2 * |hrp| + 1 + j}
  {
    hide C.High, C.Five;
    var x, y := C.ExpandHRP(hrp) + v, C.ExpandHRP(hrp') + w;
    forall k | k in Wrong(x, y) ensures k in {i, |hrp| + 1 + i, 2 * |hrp| + 1 + j} {
      if k < |hrp| {
        assert x[k] == C.High(hrp[k]) && y[k] == C.High(hrp'[k]);
      } else if |hrp| < k <= 2 * |hrp| {
        assert x[k] == C.Five(hrp[k - |hrp| - 1]) && y[k] == C.Five(hrp'[k - |hrp| - 1]);
      } else if k > 2 * |hrp| {
        assert x[k] == v[k - 2 * |hrp| - 1] && y[k] == w[k - 2 * |hrp| - 1];
      }
    }
  }

  lemma AtMostThree(s: set<nat>, a: nat, b: nat, c: nat)
    requires s <= {a, b, c}
    ensures |s| <= 3
  {
    assert {a, b, c} == s + ({a, b, c} - s);
    assert |{a, b, c}| <= 3;
  }

  lemma SameStrings(hrp: string, hrp': string, v: seq<Symbol>, w: seq<Symbol>)
    requires |hrp| == |hrp'| && |v| == |w| && C.AllPrintable(hrp) && C.AllPrintable(hrp')
    requires C.ExpandHRP(hrp) + v == C.ExpandHRP(hrp') + w
    ensures hrp == hrp' && v == w
  {
    var x, y := C.ExpandHRP(hrp) + v, C.ExpandHRP(hrp') + w;
    forall k | 0 <= k < |hrp| ensures hrp[k] == hrp'[k] {
      assert x[k] == y[k] && x[|hrp| + 1 + k] == y[|hrp| + 1 + k];
      assert C.Printable(hrp[k]) && C.Printable(hrp'[k]);
      TwoSymbols(hrp[k], hrp'[k]);
    }
    forall k | 0 <= k < |v| ensures v[k] == w[k] { assert x[2 * |hrp| + 1 + k] == y[2 * |hrp| + 1 + k]; }
  }

  lemma ShortSpan(x: seq<Symbol>, y: seq<Symbol>)
    requires |x| == |y| <= 1023
    ensures forall i, j :: i in Wrong(x, y) && j in Wrong(x, y) ==> j - i < 1023
  {
  }

  /**
    The prefix is protected, too: two strings that differ in at most one character of the prefix and at most
    one symbol of the data part, but do differ, never both verify under the same encoding.
   */
  lemma PrefixErrorDetected(e: Encoding, hrp: string, hrp': string, v: seq<Symbol>, w: seq<Symbol>, i: nat, j: nat)
    requires |hrp| == |hrp'| && |v| == |w| && C.AllPrintable(hrp) && C.AllPrintable(hrp') && (hrp != hrp' || v != w)
    requires forall k :: 0 <= k < |hrp| && k != i ==> hrp[k] == hrp'[k]
    requires forall k :: 0 <= k < |v| && k != j ==> v[k] == w[k]
    requires 2 * |hrp| + 1 + |v| <= 1023
    requires C.VerifyChecksum(hrp, v) == Some(e)
    ensures C.VerifyChecksum(hrp', w) != Some(e)
  {
    hide Xor, Poly, EncodingConstant, C.ExpandHRP, C.VerifyChecksum, Wrong;
    C.VerifyIs(hrp, v, e);
    C.VerifyIs(hrp', w, e);
    WrongPlaces(hrp, hrp', v, w, i, j);
    var x, y := C.ExpandHRP(hrp) + v, C.ExpandHRP(hrp') + w;
    if x == y { SameStrings(hrp, hrp', v, w); }
    assert |x| <= 1023 by { ExpandLength(hrp); }
    OtherState(x, y, i, |hrp| + 1 + i, 2 * |hrp| + 1 + j);
  }

  lemma OtherState(x: seq<Symbol>, y: seq<Symbol>, a: nat, b: nat, c: nat)
    requires |x| == |y| <= 1023 && x != y && Wrong(x, y) <= {a, b, c}
    ensures PolyMod(x) != PolyMod(y)
  {
    hide Poly, Wrong;
    AtMostThree(Wrong(x, y), a, b, c);
    ShortSpan(x, y);
    FewErrorsNoticed(1, x, y);
  }

  lemma ExpandLength(hrp: string)
    ensures |C.ExpandHRP(hrp)| == 2 * |hrp| + 1
  {
  }
}
