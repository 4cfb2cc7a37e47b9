/** Bech32 strings (src/bech32.cpp): encoding and decoding undo each other, and errors are noticed. */
module Bech32Codec {

  import opened Collections
  import opened Bech32

  // ---------- characters ----------

  /** The character set for encoding. */
  function CharOf(v: Symbol): char {
    if v == 0 then 'q'
    else if v == 1 then 'p'
    else if v == 2 then 'z'
    else if v == 3 then 'r'
    else if v == 4 then 'y'
    else if v == 5 then '9'
    else if v == 6 then 'x'
    else if v == 7 then '8'
    else if v == 8 then 'g'
    else if v == 9 then 'f'
    else if v == 10 then '2'
    else if v == 11 then 't'
    else if v == 12 then 'v'
    else if v == 13 then 'd'
    else if v == 14 then 'w'
    else if v == 15 then '0'
    else if v == 16 then 's'
    else if v == 17 then '3'
    else if v == 18 then 'j'
    else if v == 19 then 'n'
    else if v == 20 then '5'
    else if v == 21 then '4'
    else if v == 22 then 'k'
    else if v == 23 then 'h'
    else if v == 24 then 'c'
    else if v == 25 then 'e'
    else if v == 26 then '6'
    else if v == 27 then 'm'
    else if v == 28 then 'u'
    else if v == 29 then 'a'
    else if v == 30 then '7' else 'l'
  }

  predicate IsUpper(c: char) { 'A' <= c <= 'Z' }

  predicate IsLower(c: char) { 'a' <= c <= 'z' }

  function LowerCase(c: char): char {
    if IsUpper(c) then ((c as int - 'A' as int) + 'a' as int) as char else c
  }

  /** The character set for decoding, without the upper-case letters. */
  function RevLower(c: char): Option<Symbol> {
    if c == 'q' then Some(0)
    else if c == 'p' then Some(1)
    else if c == 'z' then Some(2)
    else if c == 'r' then Some(3)
    else if c == 'y' then Some(4)
    else if c == '9' then Some(5)
    else if c == 'x' then Some(6)
    else if c == '8' then Some(7)
    else if c == 'g' then Some(8)
    else if c == 'f' then Some(9)
    else if c == '2' then Some(10)
    else if c == 't' then Some(11)
    else if c == 'v' then Some(12)
    else if c == 'd' then Some(13)
    else if c == 'w' then Some(14)
    else if c == '0' then Some(15)
    else if c == 's' then Some(16)
    else if c == '3' then Some(17)
    else if c == 'j' then Some(18)
    else if c == 'n' then Some(19)
    else if c == '5' then Some(20)
    else if c == '4' then Some(21)
    else if c == 'k' then Some(22)
    else if c == 'h' then Some(23)
    else if c == 'c' then Some(24)
    else if c == 'e' then Some(25)
    else if c == '6' then Some(26)
    else if c == 'm' then Some(27)
    else if c == 'u' then Some(28)
    else if c == 'a' then Some(29)
    else if c == '7' then Some(30)
    else if c == 'l' then Some(31)
    else None
  }

  /** The character set for decoding: both cases of a letter stand for the same symbol. */
  function Rev(c: char): Option<Symbol> { RevLower(LowerCase(c)) }

  function LowerAll(s: string): string {
    seq(|s|, i requires 0 <= i < |s| => LowerCase(s[i]))
  }

  predicate Printable(c: char) { 33 <= c as int <= 126 }

  lemma RevChar(v: Symbol)
    ensures Rev(CharOf(v)) == Some(v)
  {
    DataChar(v);
    if v < 8 { RevChar0(v); } else if v < 16 { RevChar1(v); } else if v < 24 { RevChar2(v); } else { RevChar3(v); }
  }

  lemma RevChar0(v: Symbol)
    requires 0 <= v < 8
    ensures RevLower(CharOf(v)) == Some(v)
  {
    if v == 0 {} else if v == 1 {} else if v == 2 {} else if v == 3 {} else if v == 4 {} else if v == 5 {}
        else if v == 6 {} else if v == 7 {}
  }

  lemma RevChar1(v: Symbol)
    requires 8 <= v < 16
    ensures RevLower(CharOf(v)) == Some(v)
  {
    if v == 8 {} else if v == 9 {} else if v == 10 {} else if v == 11 {} else if v == 12 {} else if v == 13 {}
        else if v == 14 {} else if v == 15 {}
  }

  lemma RevChar2(v: Symbol)
    requires 16 <= v < 24
    ensures RevLower(CharOf(v)) == Some(v)
  {
    if v == 16 {} else if v == 17 {} else if v == 18 {} else if v == 19 {} else if v == 20 {} else if v == 21 {}
        else if v == 22 {} else if v == 23 {}
  }

  lemma RevChar3(v: Symbol)
    requires 24 <= v
    ensures RevLower(CharOf(v)) == Some(v)
  {
    if v == 24 {} else if v == 25 {} else if v == 26 {} else if v == 27 {} else if v == 28 {} else if v == 29 {}
        else if v == 30 {} else if v == 31 {}
  }

  lemma CharRev(c: char)
    requires Rev(c).Some?
    ensures CharOf(Rev(c).value) == LowerCase(c)
  {
    CharRevLower(LowerCase(c));
  }

  lemma CharRevLower(c: char)
    requires RevLower(c).Some?
    ensures CharOf(RevLower(c).value) == c
  {
    hide CharOf;
    if c == 'q' || c == 'p' || c == 'z' || c == 'r' || c == 'y' || c == '9' || c == 'x' || c == '8' { CharRev0(c); }
    else if c == 'g' || c == 'f' || c == '2' || c == 't' || c == 'v' || c == 'd' || c == 'w' || c == '0' { CharRev1(c); }
    else if c == 's' || c == '3' || c == 'j' || c == 'n' || c == '5' || c == '4' || c == 'k' || c == 'h' { CharRev2(c); }
    else if c == 'c' || c == 'e' || c == '6' || c == 'm' || c == 'u' || c == 'a' || c == '7' || c == 'l' { CharRev3(c); }
  }

  lemma CharRev0(c: char)
    requires c == 'q' || c == 'p' || c == 'z' || c == 'r' || c == 'y' || c == '9' || c == 'x' || c == '8'
    ensures RevLower(c).Some? && CharOf(RevLower(c).value) == c
  {
    if c == 'q' {} else if c == 'p' {} else if c == 'z' {} else if c == 'r' {} else if c == 'y' {} else if c == '9' {}
        else if c == 'x' {} else if c == '8' {}
  }

  lemma CharRev1(c: char)
    requires c == 'g' || c == 'f' || c == '2' || c == 't' || c == 'v' || c == 'd' || c == 'w' || c == '0'
    ensures RevLower(c).Some? && CharOf(RevLower(c).value) == c
  {
    if c == 'g' {} else if c == 'f' {} else if c == '2' {} else if c == 't' {} else if c == 'v' {} else if c == 'd' {}
        else if c == 'w' {} else if c == '0' {}
  }

  lemma CharRev2(c: char)
    requires c == 's' || c == '3' || c == 'j' || c == 'n' || c == '5' || c == '4' || c == 'k' || c == 'h'
    ensures RevLower(c).Some? && CharOf(RevLower(c).value) == c
  {
    if c == 's' {} else if c == '3' {} else if c == 'j' {} else if c == 'n' {} else if c == '5' {} else if c == '4' {}
        else if c == 'k' {} else if c == 'h' {}
  }

  lemma CharRev3(c: char)
    requires c == 'c' || c == 'e' || c == '6' || c == 'm' || c == 'u' || c == 'a' || c == '7' || c == 'l'
    ensures RevLower(c).Some? && CharOf(RevLower(c).value) == c
  {
    if c == 'c' {} else if c == 'e' {} else if c == '6' {} else if c == 'm' {} else if c == 'u' {} else if c == 'a' {}
        else if c == '7' {} else if c == 'l' {}
  }

  /** No character of the data part is a separator or in upper case. */
  lemma DataChar(v: Symbol)
    ensures Printable(CharOf(v)) && !IsUpper(CharOf(v)) && CharOf(v) != '1'
  {
  }

  // ---------- the checksum of a string ----------

  function High(c: char): Symbol { ((c as int / 32) % 8) as Symbol }

  function Five(c: char): Symbol { (c as int % 32) as Symbol }

  function ExpandHRP(hrp: string): seq<Symbol> {
    seq(|hrp|, i requires 0 <= i < |hrp| => High(hrp[i])) + [0] + seq(|hrp|, i requires 0 <= i < |hrp| => Five(hrp[i]))
  }

  function VerifyChecksum(hrp: string, values: seq<Symbol>): Option<Encoding> {
    var check := PolyMod(ExpandHRP(hrp) + values);
    if check == EncodingConstant(BECH32) then Some(BECH32)
    else if check == EncodingConstant(BECH32M) then Some(BECH32M)
    else None
  }

  function CreateChecksum(e: Encoding, hrp: string, values: seq<Symbol>): seq<Symbol> {
    Groups(Xor(PolyMod(ExpandHRP(hrp) + values + Zeros(6)), EncodingConstant(e)), 6)
  }

  lemma VerifyIs(hrp: string, values: seq<Symbol>, e: Encoding)
    ensures VerifyChecksum(hrp, values) == Some(e) <==> PolyMod(ExpandHRP(hrp) + values) == EncodingConstant(e)
  {
  }

  lemma ConstantFits(e: Encoding, c: bv32)
    requires c < 0x40000000
    ensures Fits(Xor(c, EncodingConstant(e)), 6)
  {
  }

  /** The last six symbols add their own groups to the checksum with zeros in their place. */
  lemma LastSix(c: bv32, x: seq<Symbol>)
    requires |x| == 6
    ensures Poly(c, x) == Xor(Poly(c, Zeros(6)), Poly(0, x))
  {
    PolyLinear(c, 0, Zeros(6), x);
    XorZero(c);
    ZeroXor(x);
    hide Xor, Poly;
  }

  lemma ZeroXor(x: seq<Symbol>)
    ensures XorAll(Zeros(|x|), x) == x
  {
    forall i | 0 <= i < |x| ensures XorAll(Zeros(|x|), x)[i] == x[i] { ZeroXorOne(x[i]); }
  }

  lemma ZeroXorOne(v: Symbol)
    ensures 0 ^ v == v && v ^ v == 0
  {
  }

  /** Exactly the created checksum makes the values verify. */
  lemma ChecksumVerifies(e: Encoding, hrp: string, values: seq<Symbol>, x: seq<Symbol>)
    requires |x| == 6
    ensures VerifyChecksum(hrp, values + x) == Some(e) <==> x == CreateChecksum(e, hrp, values)
  {
    hide Xor, Poly, EncodingConstant, ExpandHRP, VerifyChecksum, Groups, Fits;
    VerifyIs(hrp, values + x, e);
    var all := ExpandHRP(hrp) + values;
    assert ExpandHRP(hrp) + (values + x) == all + x;
    var c, k := Poly(1, all), EncodingConstant(e);
    PolyConcat(1, all, x);
    PolyConcat(1, all, Zeros(6));
    LastSix(c, x);
    var z := Poly(c, Zeros(6));
    assert (1 as bv32) < 0x40000000;
    PolyBound(1, all + Zeros(6));
    ConstantFits(e, z);
    PolyGroups(Xor(z, k), 6);
    GroupsPoly(x);
    Cancel(z, Poly(0, x), k);
  }

  lemma Cancel(z: bv32, p: bv32, k: bv32)
    ensures Xor(z, p) == k <==> p == Xor(z, k)
  {
    Associate(z, z, p);
    Associate(z, z, k);
    XorZero(z);
    XorZero(p);
    XorZero(k);
    hide Xor;
  }

  // ---------- errors ----------

  lemma SameXor(x: seq<Symbol>)
    ensures XorAll(x, x) == Zeros(|x|)
  {
    forall i | 0 <= i < |x| ensures XorAll(x, x)[i] == 0 { ZeroXorOne(x[i]); }
  }

  lemma XorBound(a: bv32, b: bv32)
    requires a < 0x40000000 && b < 0x40000000
    ensures Xor(a, b) < 0x40000000
  {
  }

  lemma XorNonzero(a: bv32, b: bv32)
    ensures Xor(a, b) != 0 <==> a != b
  {
    Cancel(a, b, 0);
    XorZero(a);
    hide Xor;
  }

  lemma XorSymbols(v: Symbol, w: Symbol)
    requires v != w
    ensures v ^ w != 0
  {
  }

  /** Different symbols within a stretch of six lead to different states, */
  lemma StretchDiffers(c: bv32, u: seq<Symbol>, w: seq<Symbol>)
    requires |u| == |w| <= 6 && u != w
    ensures Poly(c, u) != Poly(c, w)
  {
    PolyLinear(c, c, u, w);
    XorZero(c);
    XorNonzero(Poly(c, u), Poly(c, w));
    hide Xor, Poly;
    var i :| 0 <= i < |u| && u[i] != w[i];
    XorSymbols(u[i], w[i]);
    SmallNonzero(XorAll(u, w), i);
  }

  /** and equal symbols after it keep them different. */
  lemma TailKeeps(a: bv32, b: bv32, s: seq<Symbol>)
    requires a < 0x40000000 && b < 0x40000000 && a != b
    ensures Poly(a, s) != Poly(b, s)
  {
    PolyLinear(a, b, s, s);
    SameXor(s);
    XorBound(a, b);
    XorNonzero(a, b);
    XorNonzero(Poly(a, s), Poly(b, s));
    hide Xor, Poly;
    ZerosKeep(Xor(a, b), |s|);
  }

  /**
    Two data parts of any length under one prefix that differ only within six consecutive symbols,
    such as in a single one, never both verify under the same encoding.
   */
  lemma ErrorDetected(e: Encoding, hrp: string, p: seq<Symbol>, u: seq<Symbol>, w: seq<Symbol>, s: seq<Symbol>)
    requires |u| == |w| <= 6 && u != w && VerifyChecksum(hrp, p + u + s) == Some(e)
    ensures VerifyChecksum(hrp, p + w + s) != Some(e)
  {
    VerifyIs(hrp, p + u + s, e);
    VerifyIs(hrp, p + w + s, e);
    hide Xor, Poly, EncodingConstant, ExpandHRP, VerifyChecksum;
    var all := ExpandHRP(hrp) + p;
    assert ExpandHRP(hrp) + (p + u + s) == all + u + s && ExpandHRP(hrp) + (p + w + s) == all + w + s;
    assert (1 as bv32) < 0x40000000;
    PolyConcat(1, all + u, s);
    PolyConcat(1, all + w, s);
    PolyConcat(1, all, u);
    PolyConcat(1, all, w);
    PolyBound(1, all + u);
    PolyBound(1, all + w);
    StretchDiffers(Poly(1, all), u, w);
    TailKeeps(Poly(1, all + u), Poly(1, all + w), s);
  }

  // ---------- encoding and decoding ----------

  predicate NoUpper(s: string) { forall i :: 0 <= i < |s| ==> !IsUpper(s[i]) }

  function Chars(v: seq<Symbol>): string {
    seq(|v|, i requires 0 <= i < |v| => CharOf(v[i]))
  }

  /** `Encode`, which insists that the prefix has no upper case. */
  function Encode(e: Encoding, hrp: string, values: seq<Symbol>): string
    requires NoUpper(hrp)
  {
    hrp + "1" + Chars(values + CreateChecksum(e, hrp, values))
  }

  /** `rfind('1')` among the first `n` characters, or -1. */
  function RFind(s: string, n: nat): int
    requires n <= |s|
  {
    if n == 0 then -1 else if s[n - 1] == '1' then n - 1 else RFind(s, n - 1)
  }

  /** The characters as symbols, up to the first that stands for none. */
  function Values(s: string): (r: Option<seq<Symbol>>)
    ensures r.Some? ==> |r.value| == |s|
  {
    if s == [] then Some([])
    else
      var v := Values(s[..|s| - 1]);
      var r := Rev(s[|s| - 1]);
      if v.Some? && r.Some? then Some(v.value + [r.value]) else None
  }

  datatype Decoded = Decoded(encoding: Encoding, hrp: string, values: seq<Symbol>)

  predicate AllPrintable(s: string) { forall i :: 0 <= i < |s| ==> Printable(s[i]) }

  predicate MixedCase(s: string) { (exists i :: 0 <= i < |s| && IsLower(s[i])) && (exists i :: 0 <= i < |s| && IsUpper(s[i])) }

  function Decode(str: string, limitLength: bool): Option<Decoded> {
    if !AllPrintable(str) || MixedCase(str) then None
    else
      var pos := RFind(str, |str|);
      RFindFinds(str, |str|);
      if (limitLength && |str| > 90) || pos <= 0 || pos + 7 > |str| then None
      else
        var values := Values(str[pos + 1..]);
        if values.None? then None
        else
          var hrp := LowerAll(str[..pos]);
          var e := VerifyChecksum(hrp, values.value);
          if e.None? then None else Some(Decoded(e.value, hrp, values.value[..|values.value| - 6]))
  }

  lemma {:induction false} ValuesChars(v: seq<Symbol>)
    ensures Values(Chars(v)) == Some(v)
  {
    if v != [] {
      var n := |v| - 1;
      ValuesChars(v[..n]);
      RevChar(v[n]);
      assert Chars(v)[..n] == Chars(v[..n]);
      assert v == v[..n] + [v[n]];
    }
  }

  lemma {:induction false} CharsValues(s: string)
    requires Values(s).Some?
    ensures |Values(s).value| == |s| && Chars(Values(s).value) == LowerAll(s)
  {
    if s != [] {
      var n := |s| - 1;
      CharsValues(s[..n]);
      CharRev(s[n]);
      assert LowerAll(s) == LowerAll(s[..n]) + [LowerCase(s[n])];
    }
  }

  lemma {:induction false} RFindIs(s: string, n: nat, pos: nat)
    requires pos < n <= |s| && s[pos] == '1' && forall i :: pos < i < n ==> s[i] != '1'
    ensures RFind(s, n) == pos
  {
    if n - 1 > pos { RFindIs(s, n - 1, pos); }
  }

  lemma {:induction false} RFindFinds(s: string, n: nat)
    requires n <= |s|
    ensures -1 <= RFind(s, n) < n && (RFind(s, n) >= 0 ==> s[RFind(s, n)] == '1')
  {
    if n > 0 && s[n - 1] != '1' { RFindFinds(s, n - 1); }
  }

  /** A prefix that may be encoded: not empty, printable, no upper case. */
  predicate LegalHRP(hrp: string) { hrp != [] && AllPrintable(hrp) && NoUpper(hrp) }

  lemma LowerSame(s: string)
    requires NoUpper(s)
    ensures LowerAll(s) == s
  {
  }

  lemma EncodedChars(hrp: string, x: seq<Symbol>)
    requires LegalHRP(hrp)
    ensures var str := hrp + "1" + Chars(x);
            AllPrintable(str) && NoUpper(str) && RFind(str, |str|) == |hrp| && str[..|hrp|] == hrp
                && str[|hrp| + 1..] == Chars(x)
  {
    hide CharOf;
    var str := hrp + "1" + Chars(x);
    forall i | 0 <= i < |x| ensures Printable(Chars(x)[i]) && !IsUpper(Chars(x)[i]) && Chars(x)[i] != '1' { DataChar(x[i]); }
    RFindIs(str, |str|, |hrp|);
  }

  /** What is encoded decodes to itself. */
  lemma DecodeEncode(e: Encoding, hrp: string, values: seq<Symbol>, limitLength: bool)
    requires LegalHRP(hrp) && (limitLength ==> |hrp| + 1 + |values| + 6 <= 90)
    ensures Decode(Encode(e, hrp, values), limitLength) == Some(Decoded(e, hrp, values))
  {
    hide CharOf, RFind, Values, VerifyChecksum, CreateChecksum, Printable, IsUpper, IsLower;
    assert |CreateChecksum(e, hrp, values)| == 6 by { SixGroups(e, hrp, values); }
    var x := values + CreateChecksum(e, hrp, values);
    var str := Encode(e, hrp, values);
    EncodedChars(hrp, x);
    assert !MixedCase(str);
    ValuesChars(x);
    LowerSame(hrp);
    ChecksumVerifies(e, hrp, values, CreateChecksum(e, hrp, values));
    assert x[..|x| - 6] == values;
  }

  lemma SixGroups(e: Encoding, hrp: string, values: seq<Symbol>)
    ensures |CreateChecksum(e, hrp, values)| == 6
  {
  }

  /** What decodes is, in lower case, the encoding of what it decodes to. */
  lemma EncodeDecode(str: string, limitLength: bool)
    requires Decode(str, limitLength).Some?
    ensures var d := Decode(str, limitLength).value;
            NoUpper(d.hrp) && d.hrp != [] && Encode(d.encoding, d.hrp, d.values) == LowerAll(str)
  {
    hide CharOf, RFind, Values, VerifyChecksum, CreateChecksum, AllPrintable, MixedCase;
    var pos := RFind(str, |str|);
    RFindFinds(str, |str|);
    CharsValues(str[pos + 1..]);
    var values := Values(str[pos + 1..]).value;
    var n := |values| - 6;
    var d := Decode(str, limitLength).value;
    assert values == values[..n] + values[n..];
    ChecksumVerifies(d.encoding, d.hrp, values[..n], values[n..]);
    assert str == str[..pos] + "1" + str[pos + 1..];
    assert LowerAll(str) == LowerAll(str[..pos]) + "1" + LowerAll(str[pos + 1..]);
  }

  // ---------- exactly what decodes ----------

  lemma LowerTwice(c: char)
    ensures LowerCase(LowerCase(c)) == LowerCase(c) && !IsUpper(LowerCase(c)) && (LowerCase(c) == '1' <==> c == '1')
    ensures Printable(LowerCase(c)) <==> Printable(c)
  {
  }

  lemma {:induction false} ValuesLower(s: string)
    ensures Values(LowerAll(s)) == Values(s)
  {
    if s != [] {
      var n := |s| - 1;
      ValuesLower(s[..n]);
      LowerTwice(s[n]);
      assert LowerAll(s)[..n] == LowerAll(s[..n]);
    }
  }

  lemma {:induction false} RFindLower(s: string, n: nat)
    requires n <= |s|
    ensures RFind(LowerAll(s), n) == RFind(s, n)
  {
    if n > 0 {
      LowerTwice(s[n - 1]);
      RFindLower(s, n - 1);
    }
  }

  /** Case does not matter to a string of one case. */
  lemma DecodeLower(str: string, limitLength: bool)
    requires AllPrintable(str) && !MixedCase(str)
    ensures Decode(str, limitLength) == Decode(LowerAll(str), limitLength)
  {
    hide RFind, Values, VerifyChecksum, Printable, IsUpper, IsLower, LowerCase;
    var low := LowerAll(str);
    forall i | 0 <= i < |str| ensures Printable(low[i]) && !IsUpper(low[i]) && LowerCase(low[i]) == low[i] {
      LowerTwice(str[i]);
    }
    RFindLower(str, |str|);
    RFindFinds(str, |str|);
    var pos := RFind(str, |str|);
    if pos >= 0 {
      assert low[pos + 1..] == LowerAll(str[pos + 1..]) && low[..pos] == LowerAll(str[..pos]);
      ValuesLower(str[pos + 1..]);
      assert LowerAll(low[..pos]) == low[..pos];
    }
  }

  /** The lower case of a string is an encoding. */
  ghost predicate Encoded(str: string) {
    exists e, hrp, values :: LegalHRP(hrp) && LowerAll(str) == Encode(e, hrp, values)
  }

  /** A string decodes exactly if it is printable, of one case and short enough, and its lower case is an encoding. */
  lemma DecodeIff(str: string, limitLength: bool)
    ensures Decode(str, limitLength).Some? <==>
            AllPrintable(str) && !MixedCase(str) && (limitLength ==> |str| <= 90) && Encoded(str)
  {
    hide RFind, Values, VerifyChecksum, Encode, CreateChecksum, LowerCase;
    if Decode(str, limitLength).Some? {
      EncodeDecode(str, limitLength);
      var d := Decode(str, limitLength).value;
      LegalPrefix(str, limitLength);
      assert LegalHRP(d.hrp) && LowerAll(str) == Encode(d.encoding, d.hrp, d.values);
    }
    if AllPrintable(str) && !MixedCase(str) && (limitLength ==> |str| <= 90) && Encoded(str) {
      var e, hrp, values :| LegalHRP(hrp) && LowerAll(str) == Encode(e, hrp, values);
      EncodeLength(e, hrp, values);
      DecodeEncode(e, hrp, values, limitLength);
      DecodeLower(str, limitLength);
    }
  }

  lemma EncodeLength(e: Encoding, hrp: string, values: seq<Symbol>)
    requires NoUpper(hrp)
    ensures |Encode(e, hrp, values)| == |hrp| + 1 + |values| + 6
  {
    hide CreateChecksum, CharOf;
    SixGroups(e, hrp, values);
  }

  lemma LegalPrefix(str: string, limitLength: bool)
    requires Decode(str, limitLength).Some?
    ensures LegalHRP(Decode(str, limitLength).value.hrp)
  {
    hide RFind, Values, VerifyChecksum, Printable, IsUpper, IsLower, LowerCase;
    var pos := RFind(str, |str|);
    RFindFinds(str, |str|);
    forall i | 0 <= i < pos ensures Printable(LowerCase(str[i])) && !IsUpper(LowerCase(str[i])) { LowerTwice(str[i]); }
  }

  // ---------- known strings ----------

  /** The character set as one string. */
  const CHARSET := "qpzry9x8gf2tvdw0s3jn54khce6mua7l"

  lemma CharsetIs(v: Symbol)
    ensures CharOf(v) == CHARSET[v as int]
  {
    if v < 16 { CharsetLow(v); } else { CharsetHigh(v); }
  }

  lemma CharsetLow(v: Symbol)
    requires v < 16
    ensures CharOf(v) == CHARSET[v as int]
  {
    if v == 0 {} else if v == 1 {} else if v == 2 {} else if v == 3 {} else if v == 4 {} else if v == 5 {}
        else if v == 6 {} else if v == 7 {} else if v == 8 {} else if v == 9 {} else if v == 10 {} else if v == 11 {}
        else if v == 12 {} else if v == 13 {} else if v == 14 {} else if v == 15 {}
  }

  lemma CharsetHigh(v: Symbol)
    requires v >= 16
    ensures CharOf(v) == CHARSET[v as int]
  {
    if v == 16 {} else if v == 17 {} else if v == 18 {} else if v == 19 {} else if v == 20 {} else if v == 21 {}
        else if v == 22 {} else if v == 23 {} else if v == 24 {} else if v == 25 {} else if v == 26 {} else if v == 27 {}
        else if v == 28 {} else if v == 29 {} else if v == 30 {} else if v == 31 {}
  }

  lemma PolyNext(c: bv32, s: seq<Symbol>, v: Symbol)
    ensures Poly(c, s + [v]) == Step(Poly(c, s), v)
  {
    assert (s + [v])[..|s|] == s;
  }

  lemma ThreeSteps(c0: bv32, a: Symbol, b: Symbol, c: Symbol)
    ensures Poly(c0, [a, b, c]) == Step(Step(Step(c0, a), b), c)
  {
    assert Poly(c0, []) == c0;
    hide Step, Poly;
    PolyNext(c0, [], a);
    PolyNext(c0, [a], b);
    PolyNext(c0, [a, b], c);
    assert [] + [a] == [a] && [a] + [b] == [a, b] && [a, b] + [c] == [a, b, c];
  }

  /** The prefix "a" leaves the loop in this state. */
  lemma PrefixA()
    ensures ExpandHRP("a") == [3, 0, 1] && Poly(1, [3, 0, 1]) == 0x8c01
  {
    assert ExpandHRP("a") == [3, 0, 1] by { assert High('a') == 3 && Five('a') == 1; }
    assert Step(Step(Step(1, 3), 0), 1) == 0x8c01;
    hide Step, Poly, ExpandHRP;
    ThreeSteps(1, 3, 0, 1);
  }

  lemma EncodesTo(e: Encoding, x: seq<Symbol>)
    requires |x| == 6 && Poly(0x8c01, x) == EncodingConstant(e)
    ensures Encode(e, "a", []) == "a1" + Chars(x)
  {
    hide Poly, EncodingConstant, ExpandHRP, CreateChecksum, CharOf, VerifyChecksum;
    PrefixA();
    assert ExpandHRP("a") + x == [3, 0, 1] + x;
    PolyConcat(1, [3, 0, 1], x);
    VerifyIs("a", x, e);
    assert [] + x == x && [] + CreateChecksum(e, "a", []) == CreateChecksum(e, "a", []);
    ChecksumVerifies(e, "a", [], x);
  }

  lemma States()
    ensures Poly(0x8c01, [10, 28, 25] + [31, 20, 31]) == 1 && Poly(0x8c01, [31, 0, 9] + [19, 17, 29]) == 0x2bc830a3
  {
    assert Step(Step(Step(0x8c01, 10), 28), 25) == 0x3d6afc2b && Step(Step(Step(0x3d6afc2b, 31), 20), 31) == 1;
    assert Step(Step(Step(0x8c01, 31), 0), 9) == 0x3d6aabbb && Step(Step(Step(0x3d6aabbb, 19), 17), 29) == 0x2bc830a3;
    hide Poly, Step;
    ThreeSteps(0x8c01, 10, 28, 25);
    ThreeSteps(0x3d6afc2b, 31, 20, 31);
    ThreeSteps(0x8c01, 31, 0, 9);
    ThreeSteps(0x3d6aabbb, 19, 17, 29);
    PolyConcat(0x8c01, [10, 28, 25], [31, 20, 31]);
    PolyConcat(0x8c01, [31, 0, 9], [19, 17, 29]);
  }

  /** The shortest test strings of BIP 173 and BIP 350, which fix the constants of both encodings. */
  lemma KnownStrings()
    ensures Encode(BECH32, "a", []) == "a12uel5l" && Encode(BECH32M, "a", []) == "a1lqfn3a"
  {
    hide Poly, Encode, CharOf;
    States();
    EncodesTo(BECH32, [10, 28, 25] + [31, 20, 31]);
    EncodesTo(BECH32M, [31, 0, 9] + [19, 17, 29]);
    KnownChars();
  }

  lemma KnownChars()
    ensures "a1" + Chars([10, 28, 25] + [31, 20, 31]) == "a12uel5l" && "a1" + Chars([31, 0, 9] + [19, 17, 29]) == "a1lqfn3a"
  {
    assert Chars([10, 28, 25] + [31, 20, 31]) == "2uel5l";
    assert Chars([31, 0, 9] + [19, 17, 29]) == "lqfn3a";
  }
}
