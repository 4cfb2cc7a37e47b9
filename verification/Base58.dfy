/** Base58 (src/base58.cpp): both codecs rewrite a digit buffer in place, and undo each other. */
module Base58 {

  import opened Collections
  import opened Digits

  type Bytes = seq<nat>

  // ---------- the alphabet ----------

  /** The digits, the letters without I and O, and the small letters without l. */
  function CharOf(d: nat): char
    requires d < 58
  {
    if d < 9 then ('1' as int + d) as char
    else if d < 17 then ('A' as int + (d - 9)) as char
    else if d < 22 then ('J' as int + (d - 17)) as char
    else if d < 33 then ('P' as int + (d - 22)) as char
    else if d < 44 then ('a' as int + (d - 33)) as char
    else ('m' as int + (d - 44)) as char
  }

  function DigitOf(c: char): Option<nat> {
    if '1' <= c <= '9' then Some(c as int - '1' as int)
    else if 'A' <= c <= 'H' then Some(c as int - 'A' as int + 9)
    else if 'J' <= c <= 'N' then Some(c as int - 'J' as int + 17)
    else if 'P' <= c <= 'Z' then Some(c as int - 'P' as int + 22)
    else if 'a' <= c <= 'k' then Some(c as int - 'a' as int + 33)
    else if 'm' <= c <= 'z' then Some(c as int - 'm' as int + 44)
    else None
  }

  predicate IsSpace(c: char) {
    c == ' ' || c as int == 12 || c == '\n' || c == '\r' || c == '\t' || c as int == 11
  }

  lemma DigitOfChar(d: nat)
    requires d < 58
    ensures DigitOf(CharOf(d)) == Some(d) && !IsSpace(CharOf(d)) && (CharOf(d) == '1' <==> d == 0) && CharOf(d) != '\0'
  {
  }

  lemma CharOfDigit(c: char)
    requires DigitOf(c).Some?
    ensures DigitOf(c).value < 58 && CharOf(DigitOf(c).value) == c
  {
  }

  /** The alphabet, fixed: all digits and letters but 0, O, I and l, in ascending order. */
  lemma Alphabet(c: char)
    ensures (exists d: nat :: d < 58 && CharOf(d) == c) <==>
            ('0' <= c <= '9' || 'A' <= c <= 'Z' || 'a' <= c <= 'z') && c !in {'0', 'O', 'I', 'l'}
    ensures forall d: nat, e: nat :: d < e < 58 ==> CharOf(d) < CharOf(e)
  {
    if DigitOf(c).Some? { CharOfDigit(c); }
    if d: nat :| d < 58 && CharOf(d) == c { DigitOfChar(d); }
  }

  // ---------- the buffers suffice ----------

  lemma Powers58()
    ensures Pow(58, 64) ==
      72342179355466901471258927612150153907721848234316445933056526044582001260898145151856420451025374266490194231296
    ensures Pow(58, 5) == 656356768 && Pow(58, 7) == 2207984167552
  {
    assert Pow(58, 2) == 3364;
    assert Pow(58, 4) == 11316496;
    assert Pow(58, 5) == 656356768;
    assert Pow(58, 7) == 2207984167552;
    hide Pow;
    PowAdd(58, 4, 4);
    assert Pow(58, 8) == 128063081718016;
    PowAdd(58, 8, 8);
    assert Pow(58, 16) == 16400152899115243850138976256;
    PowAdd(58, 16, 16);
    assert Pow(58, 32) == 268965015114358137726910587140455987105619365599731777536;
    PowAdd(58, 32, 32);
    assert Pow(58, 64) ==
      72342179355466901471258927612150153907721848234316445933056526044582001260898145151856420451025374266490194231296;
  }

  lemma Powers256()
    ensures Pow(256, 32) == 115792089237316195423570985008687907853269984665640564039457584007913129639936
    ensures Pow(256, 16) == 340282366920938463463374607431768211456 && Pow(256, 4) == 4294967296 && Pow(256, 2) == 65536
  {
    assert Pow(256, 2) == 65536;
    assert Pow(256, 4) == 4294967296;
    hide Pow;
    PowAdd(256, 4, 4);
    assert Pow(256, 8) == 18446744073709551616;
    PowAdd(256, 8, 8);
    assert Pow(256, 16) == 340282366920938463463374607431768211456;
    PowAdd(256, 16, 16);
    assert Pow(256, 32) == 115792089237316195423570985008687907853269984665640564039457584007913129639936;
  }

  lemma Ratio58()
    ensures Pow(58, 71) <= Pow(256, 52)
  {
    Powers58();
    Powers256();
    hide Pow;
    PowAdd(58, 64, 7);
    PowAdd(256, 32, 16);
    PowAdd(256, 48, 4);
  }

  lemma Ratio256()
    ensures Pow(256, 50) <= Pow(58, 69)
  {
    Powers58();
    Powers256();
    hide Pow;
    PowAdd(58, 64, 5);
    PowAdd(256, 32, 16);
    PowAdd(256, 48, 2);
  }

  /** As many base-58 digits fit the buffer of the decoder, */
  lemma DecodeFits(n: nat)
    ensures Pow(58, n) <= Pow(256, n * 733 / 1000 + 1)
  {
    Ratio58();
    hide Pow;
    Fits(58, 256, 71, 52, n, n * 733 / 1000 + 1);
  }

  /** and as many bytes the buffer of the encoder. */
  lemma EncodeFits(n: nat)
    ensures Pow(256, n) <= Pow(58, n * 138 / 100 + 1)
  {
    Ratio256();
    hide Pow;
    Fits(256, 58, 50, 69, n, n * 138 / 100 + 1);
  }

  // ---------- what the codecs compute ----------

  function Leading<T(==)>(s: seq<T>, x: T): (n: nat)
    ensures n <= |s| && (forall i :: 0 <= i < n ==> s[i] == x) && (n < |s| ==> s[n] != x)
  {
    if s == [] || s[0] != x then 0 else 1 + Leading(s[1..], x)
  }

  function Repeat<T>(x: T, n: nat): seq<T> { seq(n, _ => x) }

  function Chars(ds: seq<nat>): string
    requires DigitsOf(ds, 58)
  {
    seq(|ds|, i requires 0 <= i < |ds| => CharOf(ds[i]))
  }

  /** Leading zero bytes become ones; the rest is a number, written in base 58. */
  function Encode(input: Bytes): string
    requires DigitsOf(input, 256)
  {
    var z := Leading(input, 0);
    var v := Number(input[z..], 256);
    WriteOk(v, 58);
    Repeat('1', z) + Chars(Write(v, 58))
  }

  function SkipSpaces(s: string): string {
    if s != [] && IsSpace(s[0]) then SkipSpaces(s[1..]) else s
  }

  /** How many characters come before the first space. */
  function WordLength(s: string): (n: nat)
    ensures n <= |s| && (forall i :: 0 <= i < n ==> !IsSpace(s[i])) && (n < |s| ==> IsSpace(s[n]))
  {
    if s == [] || IsSpace(s[0]) then 0 else 1 + WordLength(s[1..])
  }

  function DigitsIn(s: string): (r: Option<seq<nat>>)
    ensures r.Some? ==> |r.value| == |s|
  {
    if s == [] then Some([])
    else
      var ds := DigitsIn(s[..|s| - 1]);
      var d := DigitOf(s[|s| - 1]);
      if ds.Some? && d.Some? then Some(ds.value + [d.value]) else None
  }

  function Decode(str: string, maxLen: int): Option<Bytes> {
    if '\0' in str then None
    else
      var s := SkipSpaces(str);
      var z := Leading(s, '1');
      var n := WordLength(s[z..]);
      var ds := DigitsIn(s[z..][..n]);
      if ds.None? || SkipSpaces(s[z..][n..]) != [] then None
      else
        var r := Repeat(0, z) + Write(Number(ds.value, 58), 256);
        if r != [] && |r| > maxLen then None else Some(r)
  }

  // ---------- they undo each other ----------

  predicate AllSpaces(s: string) { forall i :: 0 <= i < |s| ==> IsSpace(s[i]) }

  lemma {:induction false} SkipAll(s: string)
    ensures SkipSpaces(s) == [] <==> AllSpaces(s)
  {
    if s != [] { SkipAll(s[1..]); }
  }

  /** The string is the word with white space around it. */
  predicate Padded(str: string, word: string) {
    var s := SkipSpaces(str);
    word <= s && AllSpaces(s[|word|..])
  }

  lemma {:induction false} DigitsInChars(ds: seq<nat>)
    requires DigitsOf(ds, 58)
    ensures DigitsIn(Chars(ds)) == Some(ds)
  {
    if ds != [] {
      var n := |ds| - 1;
      DigitsInChars(ds[..n]);
      DigitOfChar(ds[n]);
      assert Chars(ds)[..n] == Chars(ds[..n]);
      assert ds == ds[..n] + [ds[n]];
    }
  }

  lemma {:induction false} CharsDigitsIn(s: string)
    requires DigitsIn(s).Some?
    ensures DigitsOf(DigitsIn(s).value, 58) && Chars(DigitsIn(s).value) == s
    ensures s != [] ==> DigitOf(s[0]) == Some(DigitsIn(s).value[0])
  {
    if s != [] {
      var n := |s| - 1;
      CharsDigitsIn(s[..n]);
      CharOfDigit(s[n]);
      assert s == s[..n] + [s[n]];
    }
  }

  lemma LeadingIs<T>(s: seq<T>, x: T, n: nat)
    requires n <= |s| && (forall i :: 0 <= i < n ==> s[i] == x) && (n < |s| ==> s[n] != x)
    ensures Leading(s, x) == n
  {
  }

  lemma WordLengthIs(s: string, n: nat)
    requires n <= |s| && (forall i :: 0 <= i < n ==> !IsSpace(s[i])) && (n < |s| ==> IsSpace(s[n]))
    ensures WordLength(s) == n
  {
  }

  lemma NoLeadingZero(input: Bytes)
    requires DigitsOf(input, 256)
    ensures var z := Leading(input, 0); input == Repeat(0, z) + input[z..] && Write(Number(input[z..], 256), 256) == input[z..]
  {
    hide Number, Write, Leading;
    WriteNumber(input[Leading(input, 0)..], 256);
    ZerosFirst(input, Leading(input, 0));
  }

  lemma ZerosFirst(input: Bytes, z: nat)
    requires z <= |input| && forall i :: 0 <= i < z ==> input[i] == 0
    ensures input == Repeat(0, z) + input[z..]
  {
  }

  /** Decoding an encoding, with any white space around it, gives the bytes back. */
  lemma DecodeEncode(str: string, x: Bytes, maxLen: int)
    requires DigitsOf(x, 256) && (x == [] || |x| <= maxLen) && '\0' !in str && Padded(str, Encode(x))
    ensures Decode(str, maxLen) == Some(x)
  {
    hide Number, Write, SkipSpaces, CharOf, DigitOf, IsSpace;
    var z := Leading(x, 0);
    var v := Number(x[z..], 256);
    var ds := Write(v, 58);
    WriteOk(v, 58);
    var s := SkipSpaces(str);
    var word := Repeat('1', z) + Chars(ds);
    assert s == word + s[|word|..];
    forall i | 0 <= i < |ds| ensures !IsSpace(Chars(ds)[i]) { DigitOfChar(ds[i]); }
    assert !IsSpace('1') by { OneIsNoSpace(); }
    if ds != [] { DigitOfChar(ds[0]); assert ds[0] != 0 by { if v == 0 { WriteZero(); } } }
    LeadingIs(s, '1', z);
    var t := s[z..];
    assert t == Chars(ds) + s[|word|..];
    WordLengthIs(t, |ds|);
    assert t[..|ds|] == Chars(ds) && t[|ds|..] == s[|word|..];
    DigitsInChars(ds);
    SkipAll(t[|ds|..]);
    NoLeadingZero(x);
  }

  lemma OneIsNoSpace()
    ensures !IsSpace('1')
  {
  }

  lemma WriteZero()
    ensures Write(0, 58) == [] && Write(0, 256) == []
  {
  }

  /** Ones and a word that does not start with one are the encoding of the bytes they decode to. */
  lemma EncodesBack(z: nat, ds: seq<nat>)
    requires DigitsOf(ds, 58) && (ds != [] ==> ds[0] != 0)
    ensures var x := Repeat(0, z) + Write(Number(ds, 58), 256); DigitsOf(x, 256) && Encode(x) == Repeat('1', z) + Chars(ds)
  {
    hide Number, Write, CharOf;
    var v := Number(ds, 58);
    WriteNumber(ds, 58);
    WriteOk(v, 256);
    var x := Repeat(0, z) + Write(v, 256);
    assert x[z..] == Write(v, 256);
    LeadingIs(x, 0, z) by { if v == 0 { WriteZero(); } }
  }

  /** Whatever decodes is, but for white space around it, the encoding of what it decodes to. */
  lemma EncodeDecode(str: string, maxLen: int)
    requires Decode(str, maxLen).Some?
    ensures var x := Decode(str, maxLen).value; DigitsOf(x, 256) && (x == [] || |x| <= maxLen) && Padded(str, Encode(x))
    ensures '\0' !in str
  {
    hide Number, Write, SkipSpaces, CharOf, DigitOf, IsSpace, Encode;
    var s := SkipSpaces(str);
    var z := Leading(s, '1');
    var t := s[z..];
    var n := WordLength(t);
    var ds := DigitsIn(t[..n]).value;
    CharsDigitsIn(t[..n]);
    SkipAll(t[n..]);
    if n > 0 { CharOfDigit(t[0]); OnlyOneIsZero(t[0]); }
    hide DigitsIn, WordLength, Leading;
    EncodesBack(z, ds);
    assert s[..z] == Repeat('1', z);
    assert s[..z + n] == s[..z] + t[..n] && s[z + n..] == t[n..];
  }

  /** The encoding has as many leading ones as there are leading zero bytes, and as digits it is the same number. */
  lemma EncodeValue(x: Bytes)
    requires DigitsOf(x, 256)
    ensures Leading(Encode(x), '1') == Leading(x, 0)
    ensures DigitsIn(Encode(x)).Some? && Number(DigitsIn(Encode(x)).value, 58) == Number(x, 256)
  {
    hide CharOf, Number, Write, DigitsIn, Leading;
    var z := Leading(x, 0);
    var v := Number(x[z..], 256);
    var ds := Write(v, 58);
    WriteOk(v, 58);
    ZerosFirst(x, z);
    ZerosNumber(z, ds, 58);
    ZerosNumber(z, x[z..], 256);
    if v == 0 { WriteZero(); }
    OnesAndDigits(z, ds);
  }

  lemma OnesAndDigits(z: nat, ds: seq<nat>)
    requires DigitsOf(ds, 58) && (ds != [] ==> ds[0] != 0)
    ensures var s := Repeat('1', z) + Chars(ds);
            Leading(s, '1') == z && DigitsIn(s) == Some(Repeat(0, z) + ds)
  {
    hide CharOf, DigitsIn, Leading;
    var s := Repeat('1', z) + Chars(ds);
    var all := Repeat(0, z) + ds;
    DigitOfChar(0);
    assert s == Chars(all);
    DigitsInChars(all);
    if ds != [] { DigitOfChar(ds[0]); }
    LeadingIs(s, '1', z);
  }

  lemma ZerosNumber(z: nat, ds: seq<nat>, b: nat)
    ensures Number(Repeat(0, z) + ds, b) == Number(ds, b)
  {
    NumberConcat(Repeat(0, z), ds, b);
    NumberZeros(Repeat(0, z), b);
  }

  lemma OnlyOneIsZero(c: char)
    requires DigitOf(c).Some?
    ensures DigitOf(c).value == 0 <==> c == '1'
  {
  }

  // ---------- the buffers ----------

  /** The last digits of a buffer, after all but `length` zeros: the shortest digit string of `v`. */
  ghost predicate Holds(a: seq<nat>, length: nat, v: nat, b: nat) {
    && b >= 2 && length <= |a|
    && (forall i :: 0 <= i < |a| - length ==> a[i] == 0)
    && a[|a| - length..] == Write(v, b)
  }

  lemma NumberCons(d: nat, t: seq<nat>, b: nat)
    ensures Number([d] + t, b) == d * Pow(b, |t|) + Number(t, b)
  {
    NumberConcat([d], t, b);
    assert Number([d], b) == d by { assert [d][..0] == []; }
  }

  /** One digit of the product: what it was, with the carry, is split again. */
  lemma DigitStep(low: int, c: int, x: int, mul: int, was: int, add: int, p: int, b: int, q: int, r: int)
    requires low + c * p == mul * was + add && c + mul * x == q * b + r
    ensures r * p + low + q * (b * p) == mul * (x * p + was) + add
  {
    assert (q * b + r) * p == q * (b * p) + r * p;
    assert (c + mul * x) * p == c * p + mul * (x * p);
    assert mul * (x * p + was) == mul * (x * p) + mul * was;
  }

  lemma TopNonzero(t: seq<nat>, b: nat)
    requires b >= 2 && DigitsOf(t, b) && t != [] && Number(t, b) >= Pow(b, |t| - 1)
    ensures t[0] != 0
  {
    if t[0] == 0 {
      NumberCons(t[0], t[1..], b);
      assert t == [t[0]] + t[1..];
      NumberBound(t[1..], b);
    }
  }

  /** A number whose shortest digit string has `n` digits is at least that power. */
  lemma {:induction false} WriteLong(v: nat, b: nat)
    requires b >= 2 && v > 0
    ensures Write(v, b) != [] && v >= Pow(b, |Write(v, b)| - 1)
  {
    DivSmaller(v, b);
    if v / b > 0 {
      WriteLong(v / b, b);
      MulUp(Pow(b, |Write(v / b, b)| - 1), v / b, b);
    }
  }

  /** The number in a buffer is that of its last digits, whichever zeros are left out. */
  lemma HeldNumber(a: seq<nat>, length: nat, v: nat, b: nat, i: nat)
    requires Holds(a, length, v, b) && length <= i <= |a|
    ensures Number(a[|a| - i..], b) == v
  {
    hide Number, Write;
    WriteOk(v, b);
    var zeros := a[|a| - i..|a| - length];
    NumberZeros(zeros, b);
    assert a[|a| - i..] == zeros + a[|a| - length..];
    NumberConcat(zeros, a[|a| - length..], b);
  }

  /** The loop has come to its end with nothing to carry: the buffer holds the product. */
  lemma Finished(a: seq<nat>, s: seq<nat>, length: nat, i: nat, v: nat, total: nat, b: nat)
    requires Holds(s, length, v, b) && length <= i <= |a| == |s| && a[..|a| - i] == s[..|a| - i]
    requires DigitsOf(a[|a| - i..], b) && Number(a[|a| - i..], b) == total >= v
    requires i > length ==> total >= Pow(b, i - 1)
    ensures Holds(a, i, total, b)
  {
    hide Number, Write;
    var t := a[|a| - i..];
    if i > 0 {
      if i == length {
        if v == 0 { WriteZeroIs(b); }
        WriteLong(v, b);
      }
      TopNonzero(t, b);
    }
    WriteNumber(t, b);
    forall k | 0 <= k < |a| - i ensures a[k] == 0 { assert a[..|a| - i][k] == s[..|a| - i][k]; }
  }

  lemma WriteZeroIs(b: nat)
    requires b >= 2
    ensures Write(0, b) == []
  {
  }

  /** The digits done so far with the carry in the next place, */
  function Accum(low: seq<nat>, carry: nat, b: nat): int { Number(low, b) + carry * Pow(b, |low|) }

  /** and what they should be. */
  function Affine(mul: nat, x: nat, add: nat): int { mul * x + add }

  /** One digit of the product: what it was, with the carry, is split again. */
  lemma AccumStep(low: seq<nat>, c: nat, x: nat, mul: nat, was: seq<nat>, add: nat, b: nat, q: nat, r: nat)
    requires |low| == |was| && Accum(low, c, b) == Affine(mul, Number(was, b), add) && c + mul * x == q * b + r
    ensures Accum([r] + low, q, b) == Affine(mul, Number([x] + was, b), add)
  {
    hide Number;
    var p := Pow(b, |low|);
    NumberCons(r, low, b);
    NumberCons(x, was, b);
    PowNext(b, |low|);
    hide Pow;
    assert |[r] + low| == |low| + 1;
    DigitStep(Number(low, b), c, x, mul, Number(was, b), add, p, b, q, r);
  }

  /** With a carry left the number is at least as large as that place. */
  lemma CarriesOn(low: seq<nat>, carry: nat, b: nat)
    requires carry >= 1 && b >= 1
    ensures Accum(low, carry, b) >= Pow(b, |low|)
  {
    hide Number;
    PowPositive(b, |low|);
    hide Pow;
    MulUp(1, carry, Pow(b, |low|));
  }

  lemma NoCarry(low: seq<nat>, b: nat)
    ensures Accum(low, 0, b) == Number(low, b)
  {
    hide Number, Pow;
  }

  /**
    The inner loop of both codecs: the number in the buffer is multiplied and a digit is added, from
    the last digit up, for as long as there is a carry or an old digit.
   */
  method MulAdd(a: array<nat>, length: nat, mul: nat, base: nat, add: nat, ghost v: nat) returns (newLength: nat, carry: nat)
    requires Holds(a[..], length, v, base) && 1 <= mul && Affine(mul, v, add) < Pow(base, a.Length)
    modifies a
    ensures carry == 0 && Holds(a[..], newLength, Affine(mul, v, add), base)
  {
    hide Number, Write, Pow, Accum, Affine, Holds;
    carry := add;
    newLength := 0;
    var n := a.Length;
    ghost var s, total := a[..], Affine(mul, v, add);
    assert a[n..] == [] && s[n..] == [];
    NothingYet(mul, add, base);
    HeldLength(s, length, v, base);
    while (carry != 0 || newLength < length) && newLength < n
      invariant 0 <= newLength <= n && a[..n - newLength] == s[..n - newLength] && DigitsOf(a[n - newLength..], base)
      invariant Accum(a[n - newLength..], carry, base) == Affine(mul, Number(s[n - newLength..], base), add)
      invariant newLength > length ==> total >= Pow(base, newLength - 1)
      decreases n - newLength
    {
      var at := n - 1 - newLength;
      ghost var low, c := a[at + 1..], carry;
      assert a[at] == s[at] by { assert a[..at + 1][at] == s[..at + 1][at]; }
      if newLength >= length {
        HeldNumber(s, length, v, base, newLength);
        CarriesOn(low, carry, base);
      }
      var full := carry + mul * a[at];
      Split(full, base);
      AccumStep(low, c, s[at], mul, s[at + 1..], add, base, full / base, full % base);
      a[at] := full % base;
      carry := full / base;
      newLength := newLength + 1;
      assert a[at + 1..] == low && a[at..] == [full % base] + low && s[at..] == [s[at]] + s[at + 1..];
    }
    HeldNumber(s, length, v, base, newLength);
    if carry != 0 { CarriesOn(a[n - newLength..], carry, base); }
    NoCarry(a[n - newLength..], base);
    AtLeast(mul, v, add);
    Finished(a[..], s, length, newLength, v, total, base);
  }

  lemma Split(x: nat, b: nat)
    requires b >= 2
    ensures x == (x / b) * b + x % b && 0 <= x / b && 0 <= x % b < b
  {
    if x / b < 0 { MulUp(x / b, -1, b); }
  }

  lemma AtLeast(mul: nat, v: nat, add: nat)
    requires mul >= 1
    ensures Affine(mul, v, add) >= v
  {
    MulUp(1, mul, v);
  }

  lemma HeldLength(a: seq<nat>, length: nat, v: nat, b: nat)
    requires Holds(a, length, v, b)
    ensures length <= |a| && b >= 2
  {
  }

  lemma NothingYet(mul: nat, add: nat, b: nat)
    ensures Accum([], add, b) == Affine(mul, Number([], b), add)
  {
  }

  lemma PowNext(b: nat, n: nat)
    ensures Pow(b, n + 1) == b * Pow(b, n)
  {
  }
}
