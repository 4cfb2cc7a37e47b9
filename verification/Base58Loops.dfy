/** `EncodeBase58` and `DecodeBase58` with their buffers (src/base58.cpp); the Check variants. */
module Base58Loops {

  import opened Collections
  import opened Digits
  import opened Base58

  /** An empty buffer. */
  method NewBuffer(size: nat, b: nat) returns (a: array<nat>)
    requires b >= 2
    ensures fresh(a) && a.Length == size && Holds(a[..], 0, 0, b)
  {
    a := new nat[size](_ => 0);
    WriteZeroIs(b);
    assert a[size..] == [];
  }

  /** One more digit fits as long as all of them do. */
  lemma NextFits(s: seq<nat>, i: nat, from: nat, to: nat, size: nat)
    requires i < |s| && from >= 1 && DigitsOf(s, from) && Pow(from, |s|) <= Pow(to, size)
    ensures Number(s[..i + 1], from) == Affine(from, Number(s[..i], from), s[i]) < Pow(to, size)
  {
    hide Pow;
    assert s[..i + 1][..i] == s[..i];
    NumberBound(s[..i + 1], from);
    PowUp(from, i + 1, |s|);
  }

  method SkipZeros(a: array<nat>, start: nat) returns (it: nat)
    requires start <= a.Length
    ensures start <= it <= a.Length && (forall k :: start <= k < it ==> a[k] == 0) && (it < a.Length ==> a[it] != 0)
  {
    it := start;
    while it < a.Length && a[it] == 0
      invariant start <= it <= a.Length && forall k :: start <= k < it ==> a[k] == 0
    {
      it := it + 1;
    }
  }

  method EncodeBase58(input: Bytes) returns (str: string)
    requires DigitsOf(input, 256)
    ensures str == Encode(input)
  {
    hide Number, Write, Pow, Affine, Holds, CharOf, DigitOf;
    var zeroes := 0;
    while zeroes < |input| && input[zeroes] == 0
      invariant 0 <= zeroes <= |input| && forall i :: 0 <= i < zeroes ==> input[i] == 0
    {
      zeroes := zeroes + 1;
    }
    LeadingIs(input, 0, zeroes);
    var rest := input[zeroes..];
    var size := |rest| * 138 / 100 + 1;
    EncodeFits(|rest|);
    var b58 := NewBuffer(size, 58);
    var length: nat := 0;
    assert Number(rest[..0], 256) == 0 by { NumberZeros(rest[..0], 256); }
    for i := 0 to |rest|
      invariant b58.Length == size && Holds(b58[..], length, Number(rest[..i], 256), 58)
    {
      NextFits(rest, i, 256, 58, size);
      var carry;
      length, carry := MulAdd(b58, length, 256, 58, rest[i], Number(rest[..i], 256));
      assert carry == 0;
    }
    assert rest[..|rest|] == rest;
    ghost var v := Number(rest, 256);
    WriteOk(v, 58);
    HeldDigits(b58[..], length, v, 58);
    var it := SkipZeros(b58, size - length);
    assert it == size - length by { assert length > 0 ==> b58[..][size - length] != 0; }
    str := Repeat('1', zeroes);
    for k := 0 to length
      invariant str == Repeat('1', zeroes) + Chars(Write(v, 58))[..k]
    {
      assert b58[..][it + k] == Write(v, 58)[k];
      str := str + [CharOf(b58[it + k])];
    }
  }

  lemma HeldDigits(a: seq<nat>, length: nat, v: nat, b: nat)
    requires Holds(a, length, v, b)
    ensures length <= |a| && |Write(v, b)| == length && a[|a| - length..] == Write(v, b)
    ensures forall k :: 0 <= k < length ==> a[|a| - length + k] == Write(v, b)[k]
    ensures length > 0 ==> a[|a| - length] != 0
  {
    hide Write;
    WriteOk(v, b);
    if v == 0 { WriteZeroIs(b); }
  }

  // ---------- decoding ----------

  /** The position after the white space from `start` on. */
  method SkipSpacesFrom(str: string, start: nat) returns (at: nat)
    requires start <= |str|
    ensures start <= at <= |str| && str[at..] == SkipSpaces(str[start..])
  {
    at := start;
    while at < |str| && IsSpace(str[at])
      invariant start <= at <= |str| && SkipSpaces(str[start..]) == SkipSpaces(str[at..])
    {
      assert str[at..][1..] == str[at + 1..];
      at := at + 1;
    }
  }

  /** The position after the leading ones, unless they are too many. */
  method SkipOnes(str: string, start: nat, maxLen: int) returns (ok: bool, zeroes: nat)
    requires start <= |str|
    ensures ok ==> zeroes == Leading(str[start..], '1') && (zeroes == 0 || zeroes <= maxLen)
    ensures !ok ==> Leading(str[start..], '1') > maxLen && Leading(str[start..], '1') > 0
  {
    zeroes := 0;
    while start + zeroes < |str| && str[start + zeroes] == '1'
      invariant start + zeroes <= |str| && (forall i :: 0 <= i < zeroes ==> str[start..][i] == '1')
                && (zeroes == 0 || zeroes <= maxLen)
    {
      zeroes := zeroes + 1;
      if zeroes > maxLen {
        MoreThan(str[start..], zeroes);
        return false, zeroes;
      }
    }
    LeadingIs(str[start..], '1', zeroes);
    return true, zeroes;
  }

  lemma MoreThan(s: string, n: nat)
    requires n <= |s| && forall i :: 0 <= i < n ==> s[i] == '1'
    ensures Leading(s, '1') >= n
  {
  }

  lemma {:induction false} NoDigitsIn(s: string, n: nat)
    requires n <= |s| && DigitsIn(s[..n]).None?
    ensures DigitsIn(s).None?
    decreases |s|
  {
    hide DigitOf;
    if n < |s| {
      assert s[..|s| - 1][..n] == s[..n];
      NoDigitsIn(s[..|s| - 1], n);
    } else {
      assert s[..n] == s;
    }
  }

  /** The main loop: the word at `start` is read into a buffer of bytes, while it is short enough. */
  method ReadWord(str: string, start: nat, zeroes: nat, maxLen: int) returns (ok: bool, at: nat, bytes: Bytes)
    requires start <= |str| && (start < |str| ==> str[start] != '1')
    ensures var t := str[start..];
            var ds := DigitsIn(t[..WordLength(t)]);
            if ok then
              ds.Some? && at == start + WordLength(t) && bytes == Write(Number(ds.value, 58), 256)
              && (ds.value == [] || |bytes| + zeroes <= maxLen)
            else
              ds.None? || (zeroes + |Write(Number(ds.value, 58), 256)| > maxLen && Write(Number(ds.value, 58), 256) != [])
  {
    hide Number, Write, Pow, Affine, Holds, CharOf, DigitOf, IsSpace;
    ghost var t := str[start..];
    ghost var word := t[..WordLength(t)];
    var n := |str| - start;
    var size := n * 733 / 1000 + 1;
    var b256 := NewBuffer(size, 256);
    var length: nat := 0;
    at := start;
    ghost var ds: seq<nat> := [];
    assert Number([], 58) == 0 by { NumberZeros([], 58); }
    while at < |str| && !IsSpace(str[at])
      invariant start <= at <= start + |word| && |ds| == at - start && DigitsOf(ds, 58)
      invariant DigitsIn(word[..at - start]) == Some(ds)
      invariant b256.Length == size && Holds(b256[..], length, Number(ds, 58), 256)
      invariant ds == [] || (ds[0] != 0 && length + zeroes <= maxLen)
    {
      assert str[at] == t[at - start] && at - start < |word|;
      assert word[..at - start + 1][..at - start] == word[..at - start] && word[at - start] == str[at];
      var digit := DigitOf(str[at]);
      if digit.None? {
        NoDigitsIn(word, at - start + 1);
        return false, at, [];
      }
      CharOfDigit(str[at]);
      OnlyOneIsZero(str[at]);
      WordFits(ds, digit.value, n, size);
      var carry;
      length, carry := MulAdd(b256, length, 58, 256, digit.value, Number(ds, 58));
      assert carry == 0;
      ds := ds + [digit.value];
      if length + zeroes > maxLen {
        HeldDigits(b256[..], length, Number(ds, 58), 256);
        WriteNumber(ds, 58);
        WriteLong(Number(ds, 58), 256);
        TooLong(word, ds);
        return false, at, [];
      }
      at := at + 1;
    }
    WordLengthIs(t, at - start);
    assert word[..at - start] == word;
    HeldDigits(b256[..], length, Number(ds, 58), 256);
    bytes := b256[size - length..];
    return true, at, bytes;
  }

  lemma WordFits(ds: seq<nat>, d: nat, n: nat, size: nat)
    requires DigitsOf(ds, 58) && d < 58 && |ds| < n && size == n * 733 / 1000 + 1
    ensures Number(ds + [d], 58) == Affine(58, Number(ds, 58), d) < Pow(256, size)
  {
    hide Pow;
    assert (ds + [d])[..|ds|] == ds;
    NumberBound(ds + [d], 58);
    PowUp(58, |ds| + 1, n);
    DecodeFits(n);
  }

  /** A longer word makes more bytes. */
  lemma TooLong(word: string, ds: seq<nat>)
    requires |ds| <= |word| && DigitsIn(word[..|ds|]) == Some(ds)
    ensures DigitsIn(word).None? || |Write(Number(DigitsIn(word).value, 58), 256)| >= |Write(Number(ds, 58), 256)|
    decreases |word| - |ds|
  {
    hide Number, Write, DigitOf;
    if |ds| == |word| {
      assert word[..|ds|] == word;
    } else {
      var n := |ds|;
      assert word[..n + 1][..n] == word[..n];
      if DigitOf(word[n]).None? {
        NoDigitsIn(word, n + 1);
      } else {
        var more := ds + [DigitOf(word[n]).value];
        TooLong(word, more);
        LongerNumber(ds, DigitOf(word[n]).value);
      }
    }
  }

  lemma LongerNumber(ds: seq<nat>, d: nat)
    ensures |Write(Number(ds + [d], 58), 256)| >= |Write(Number(ds, 58), 256)|
  {
    hide Write;
    assert (ds + [d])[..|ds|] == ds;
    WriteUp(Number(ds, 58), Number(ds + [d], 58));
  }

  lemma {:induction false} WriteUp(x: nat, y: nat)
    requires x <= y
    ensures |Write(x, 256)| <= |Write(y, 256)|
    decreases y
  {
    if x > 0 { WriteUp(x / 256, y / 256); }
  }

  method DecodeBase58(str: string, maxLen: int) returns (r: Option<Bytes>)
    ensures r == Decode(str, maxLen)
  {
    hide Number, Write, SkipSpaces, CharOf, DigitOf, IsSpace, DigitsIn, WordLength, Leading;
    if '\0' in str { return None; }
    var start := SkipSpacesFrom(str, 0);
    assert str[0..] == str;
    ghost var s := str[start..];
    var ok, zeroes := SkipOnes(str, start, maxLen);
    if !ok { return None; }
    assert zeroes < |s| ==> str[start + zeroes] == s[zeroes];
    var at, bytes;
    assert s[zeroes..] == str[start + zeroes..];
    ok, at, bytes := ReadWord(str, start + zeroes, zeroes, maxLen);
    if !ok { return None; }
    assert s[zeroes..][at - (start + zeroes)..] == str[at..];
    at := SkipSpacesFrom(str, at);
    if at < |str| { return None; }
    NumberZeros([], 58);
    WriteZero();
    return Some(Repeat(0, zeroes) + bytes);
  }

  // ---------- with a checksum ----------

  const MAX_INT := 0x7fff_ffff

  /** The first four bytes of the hash, which has at least as many. */
  function Checksum(hash: Bytes -> Bytes, x: Bytes): Bytes
    requires |hash(x)| >= 4
  {
    hash(x)[..4]
  }

  ghost predicate IsHash(hash: Bytes -> Bytes) {
    forall x :: |hash(x)| >= 4 && DigitsOf(hash(x), 256)
  }

  ghost function EncodeCheck(hash: Bytes -> Bytes, x: Bytes): string
    requires IsHash(hash) && DigitsOf(x, 256)
  {
    Encode(x + Checksum(hash, x))
  }

  ghost function DecodeCheck(hash: Bytes -> Bytes, str: string, maxLen: int): Option<Bytes>
    requires IsHash(hash)
  {
    var r := Decode(str, if maxLen > MAX_INT - 4 then MAX_INT else maxLen + 4);
    if r.None? || |r.value| < 4 then None
    else
      var x := r.value[..|r.value| - 4];
      if Checksum(hash, x) != r.value[|r.value| - 4..] then None else Some(x)
  }

  /**
    For every 32-bit limit, a string decodes to `x` exactly if it is the encoding of `x` with its
    checksum, with white space around it, and `x` is within the limit.
   */
  lemma CheckedRoundTrip(hash: Bytes -> Bytes, str: string, x: Bytes, maxLen: int)
    requires IsHash(hash) && DigitsOf(x, 256) && maxLen <= MAX_INT && |x| <= MAX_INT - 4
    ensures DecodeCheck(hash, str, maxLen) == Some(x) <==> '\0' !in str && |x| <= maxLen && Padded(str, EncodeCheck(hash, x))
  {
    hide Decode, Encode, Padded;
    var limit := if maxLen > MAX_INT - 4 then MAX_INT else maxLen + 4;
    var y := x + Checksum(hash, x);
    if '\0' !in str && |x| <= maxLen && Padded(str, Encode(y)) {
      DecodeEncode(str, y, limit);
      assert y[..|y| - 4] == x && y[|y| - 4..] == Checksum(hash, x);
    }
    if DecodeCheck(hash, str, maxLen) == Some(x) {
      EncodeDecode(str, limit);
      var r := Decode(str, limit).value;
      assert r == x + r[|r| - 4..];
      NoNul(str, limit);
    }
  }

  lemma NoNul(str: string, maxLen: int)
    requires Decode(str, maxLen).Some?
    ensures '\0' !in str
  {
  }
}
