/** The loops of src/bech32.cpp; each method computes the function of the same name. */
module Bech32Loops {

  import opened Collections
  import opened Bech32
  import opened Bech32Codec
  import B = Bech32
  import C = Bech32Codec

  method PolyMod(v: seq<Symbol>) returns (c: bv32)
    ensures c == B.PolyMod(v)
  {
    hide Step;
    c := 1;
    for i := 0 to |v|
      invariant c == Poly(1, v[..i])
    {
      assert v[..i + 1][..i] == v[..i];
      c := Step(c, v[i]);
    }
    assert v[..|v|] == v;
  }

  method ExpandHRP(hrp: string) returns (ret: seq<Symbol>)
    ensures ret == C.ExpandHRP(hrp)
  {
    var n := |hrp|;
    ret := Zeros(2 * n + 1);
    for i := 0 to n
      invariant |ret| == 2 * n + 1 && ret[n] == 0
      invariant forall j :: 0 <= j < i ==> ret[j] == High(hrp[j]) && ret[j + n + 1] == Five(hrp[j])
    {
      ret := ret[i := High(hrp[i])];
      ret := ret[i + n + 1 := Five(hrp[i])];
    }
    assert ret == C.ExpandHRP(hrp);
  }

  /** The loop over the six groups is written out. */
  method CreateChecksum(e: Encoding, hrp: string, values: seq<Symbol>) returns (ret: seq<Symbol>)
    ensures ret == C.CreateChecksum(e, hrp, values)
  {
    var expanded := ExpandHRP(hrp);
    var check := PolyMod(expanded + values + Zeros(6));
    var mod := Xor(check, EncodingConstant(e));
    GroupsAre(mod);
    return [LastOf(mod >> 25), LastOf(mod >> 20), LastOf(mod >> 15), LastOf(mod >> 10), LastOf(mod >> 5), LastOf(mod)];
  }

  method Encode(e: Encoding, hrp: string, values: seq<Symbol>) returns (ret: string)
    requires NoUpper(hrp)
    ensures ret == C.Encode(e, hrp, values)
  {
    hide CharOf, C.CreateChecksum;
    var checksum := CreateChecksum(e, hrp, values);
    var combined := values + checksum;
    ret := hrp + "1";
    for i := 0 to |combined|
      invariant ret == hrp + "1" + Chars(combined)[..i]
    {
      ret := ret + [CharOf(combined[i])];
    }
  }

  /** The first loop of `Decode`. */
  method CheckCase(str: string) returns (ok: bool)
    ensures ok <==> AllPrintable(str) && !MixedCase(str)
  {
    var lower, upper := false, false;
    for i := 0 to |str|
      invariant lower <==> exists j :: 0 <= j < i && IsLower(str[j])
      invariant upper <==> exists j :: 0 <= j < i && IsUpper(str[j])
      invariant forall j :: 0 <= j < i ==> Printable(str[j])
    {
      var c := str[i];
      if IsLower(c) {
        lower := true;
      } else if IsUpper(c) {
        upper := true;
      } else if !Printable(c) {
        return false;
      }
    }
    return !(lower && upper);
  }

  method ReadValues(s: string) returns (r: Option<seq<Symbol>>)
    ensures r == Values(s)
  {
    hide Rev;
    var values: seq<Symbol> := [];
    for i := 0 to |s|
      invariant Values(s[..i]) == Some(values)
    {
      assert s[..i + 1][..i] == s[..i];
      var rev := Rev(s[i]);
      if rev.None? {
        NoValues(s, i + 1);
        return None;
      }
      values := values + [rev.value];
    }
    assert s[..|s|] == s;
    return Some(values);
  }

  lemma {:induction false} NoValues(s: string, n: nat)
    requires n <= |s| && Values(s[..n]).None?
    ensures Values(s).None?
    decreases |s|
  {
    hide Rev;
    if n < |s| {
      assert s[..|s| - 1][..n] == s[..n];
      NoValues(s[..|s| - 1], n);
    } else {
      assert s[..n] == s;
    }
  }

  method Decode(str: string, limitLength: bool) returns (r: Option<Decoded>)
    ensures r == C.Decode(str, limitLength)
  {
    hide Values, Rev, VerifyChecksum, AllPrintable, MixedCase, LowerCase;
    var ok := CheckCase(str);
    if !ok { return None; }
    var pos := RFind(str, |str|);
    RFindFinds(str, |str|);
    if (limitLength && |str| > 90) || pos == -1 || pos == 0 || pos + 7 > |str| { return None; }
    var values := ReadValues(str[pos + 1..]);
    if values.None? { return None; }
    var hrp := "";
    for i := 0 to pos
      invariant hrp == LowerAll(str[..pos])[..i]
    {
      hrp := hrp + [LowerCase(str[i])];
    }
    assert hrp == LowerAll(str[..pos]);
    var e := VerifyChecksum(hrp, values.value);
    if e.None? { return None; }
    return Some(Decoded(e.value, hrp, values.value[..|values.value| - 6]));
  }
}
