/** The loops that encode and decode Bech32 and Bech32m strings. */
module Bech32Code {
  import opened Bech32
  import opened Bech32Poly
  import opened Prelude

  // ----- checking characters -----

  datatype Case = NoCase | Lower | Upper

  function CaseOf(c: bv8): Case {
    if IsLower(c) then Lower else if IsUpper(c) then Upper else NoCase
  }

  /** The case of the first letter. */
  function FirstCase(str: seq<bv8>): Case
    decreases |str|
  {
    if str == [] then NoCase
    else
      var before := FirstCase(str[..|str| - 1]);
      if before != NoCase then before else CaseOf(str[|str| - 1])
  }

  /** A letter not in the case of the first letter, or another character that is not printable. */
  predicate Bad(str: seq<bv8>, i: nat)
    requires i < |str|
  {
    match CaseOf(str[i])
    case Lower => FirstCase(str[..i]) == Upper
    case Upper => FirstCase(str[..i]) == Lower
    case NoCase => !IsPrintable(str[i])
  }

  method CheckCharacters(str: seq<bv8>) returns (ok: bool, errors: seq<int>)
    ensures ok <==> CharsOk(str)
    ensures forall i :: i in errors <==> 0 <= i < |str| && Bad(str, i)
    ensures forall j, k | 0 <= j < k < |errors| :: errors[j] < errors[k]
  {
    hide IsLower, IsUpper, IsPrintable, CharsOk;
    var lower, upper := false, false;
    errors := [];
    var i := 0;
    while i < |str|
      invariant 0 <= i <= |str|
      invariant lower == (FirstCase(str[..i]) == Lower) && upper == (FirstCase(str[..i]) == Upper)
      invariant forall k :: k in errors <==> 0 <= k < i && Bad(str, k)
      invariant forall j, k | 0 <= j < k < |errors| :: errors[j] < errors[k]
    {
      var c := str[i];
      CasesApart(c);
      assert str[..i + 1][..i] == str[..i];
      ghost var was := errors;
      if IsLower(c) {
        if upper { errors := errors + [i]; } else { lower := true; }
      } else if IsUpper(c) {
        if lower { errors := errors + [i]; } else { upper := true; }
      } else if !IsPrintable(c) {
        errors := errors + [i];
      }
      Recorded(str, was, errors, i);
      i := i + 1;
    }
    ok := errors == [];
    BadIff(str);
    if !ok { assert errors[0] in errors; }
  }

  lemma CasesApart(c: bv8)
    ensures !(IsLower(c) && IsUpper(c)) && (IsLower(c) || IsUpper(c) ==> IsPrintable(c))
  {
  }

  lemma Recorded(str: seq<bv8>, was: seq<int>, errors: seq<int>, i: nat)
    requires i < |str| && errors == (if Bad(str, i) then was + [i] else was)
    requires forall k :: k in was <==> 0 <= k < i && Bad(str, k)
    requires forall j, k | 0 <= j < k < |was| :: was[j] < was[k]
    ensures forall k :: k in errors <==> 0 <= k < i + 1 && Bad(str, k)
    ensures forall j, k | 0 <= j < k < |errors| :: errors[j] < errors[k]
  {
    hide Bad;
    forall j | 0 <= j < |was| ensures was[j] < i { assert was[j] in was; }
    forall k ensures k in errors <==> 0 <= k < i + 1 && Bad(str, k) {
      assert k in was + [i] <==> k in was || k == i;
    }
  }

  lemma {:induction false} FirstCaseStays(str: seq<bv8>, i: nat)
    requires i <= |str| && FirstCase(str[..i]) != NoCase
    ensures FirstCase(str) == FirstCase(str[..i])
    decreases |str|
  {
    hide CaseOf;
    if i < |str| {
      assert str[..|str| - 1][..i] == str[..i];
      FirstCaseStays(str[..|str| - 1], i);
    } else {
      assert str[..i] == str;
    }
  }

  lemma {:induction false} NoLetters(str: seq<bv8>)
    requires FirstCase(str) == NoCase
    ensures forall i | 0 <= i < |str| :: CaseOf(str[i]) == NoCase
    decreases |str|
  {
    hide CaseOf;
    if str != [] { NoLetters(str[..|str| - 1]); }
  }

  /** A letter decides the case of the first letter, unless an earlier one has. */
  lemma LetterDecides(str: seq<bv8>, i: nat)
    requires i < |str| && CaseOf(str[i]) != NoCase
    ensures FirstCase(str) == if FirstCase(str[..i]) != NoCase then FirstCase(str[..i]) else CaseOf(str[i])
  {
    hide CaseOf;
    assert str[..i + 1][..i] == str[..i];
    FirstCaseStays(str, i + 1);
  }

  /** A string is in order exactly when none of its characters is bad. */
  lemma BadIff(str: seq<bv8>)
    ensures CharsOk(str) <==> forall i | 0 <= i < |str| :: !Bad(str, i)
  {
    hide IsLower, IsUpper, IsPrintable, FirstCase;
    if forall i | 0 <= i < |str| :: !Bad(str, i) {
      forall i | 0 <= i < |str|
        ensures IsPrintable(str[i])
        ensures (IsLower(str[i]) ==> FirstCase(str) == Lower) && (IsUpper(str[i]) ==> FirstCase(str) == Upper)
      {
        assert !Bad(str, i);
        CasesApart(str[i]);
        if CaseOf(str[i]) != NoCase { LetterDecides(str, i); }
      }
    } else {
      var i :| 0 <= i < |str| && Bad(str, i);
      MixedCase(str, i);
    }
  }

  lemma MixedCase(str: seq<bv8>, i: nat)
    requires i < |str| && Bad(str, i)
    ensures !CharsOk(str)
  {
    hide IsLower, IsUpper, IsPrintable;
    if CaseOf(str[i]) != NoCase {
      var j := FirstLetter(str[..i]);
      CasesApart(str[i]);
      assert str[j] == str[..i][j];
    }
  }

  lemma {:induction false} FirstLetter(str: seq<bv8>) returns (j: nat)
    requires FirstCase(str) != NoCase
    ensures j < |str| && CaseOf(str[j]) == FirstCase(str)
    decreases |str|
  {
    hide CaseOf;
    var n := |str| - 1;
    if FirstCase(str[..n]) != NoCase {
      j := FirstLetter(str[..n]);
    } else {
      j := n;
    }
  }

  // ----- checksums -----

  method PreparePolynomialCoefficients(hrp: seq<bv8>, values: seq<bv8>) returns (ret: seq<bv8>)
    ensures ret == Coefficients(hrp, values) && |ret| == 2 * |hrp| + 1 + |values|
    ensures forall i | 0 <= i < |hrp| :: ret[i] == hrp[i] >> 5 && ret[|hrp| + 1 + i] == hrp[i] & 31
    ensures ret[|hrp|] == 0 && ret[2 * |hrp| + 1..] == values
  {
    hide High, Low5;
    ret := [];
    var i := 0;
    while i < |hrp|
      invariant 0 <= i <= |hrp| && ret == HighBits(hrp)[..i]
    {
      ret := ret + [High(hrp[i])];
      i := i + 1;
    }
    assert ret == HighBits(hrp);
    ret := ret + [0];
    ghost var front := ret;
    i := 0;
    while i < |hrp|
      invariant 0 <= i <= |hrp| && ret == front + LowBits(hrp)[..i]
    {
      ret := ret + [Low5(hrp[i])];
      i := i + 1;
    }
    assert LowBits(hrp)[..i] == LowBits(hrp);
    ret := ret + values;
    SplitBits(hrp, values);
  }

  lemma SplitBits(hrp: seq<bv8>, values: seq<bv8>)
    ensures var ret := Coefficients(hrp, values);
            && |ret| == 2 * |hrp| + 1 + |values| && ret[|hrp|] == 0 && ret[2 * |hrp| + 1..] == values
            && forall i | 0 <= i < |hrp| :: ret[i] == hrp[i] >> 5 && ret[|hrp| + 1 + i] == hrp[i] & 31
  {
  }

  method VerifyChecksum(hrp: seq<bv8>, values: seq<bv8>) returns (r: Option<Encoding>)
    ensures r == Verified(hrp, values)
    ensures r == Some(BECH32) <==> PolyMod(Coefficients(hrp, values)) == 1
    ensures r == Some(BECH32M) <==> PolyMod(Coefficients(hrp, values)) == 0x2bc830a3
  {
    hide PolyMod;
    var enc := PreparePolynomialCoefficients(hrp, values);
    var check := ComputePolyMod(enc);
    if check == EncodingConstant(BECH32) { return Some(BECH32); }
    if check == EncodingConstant(BECH32M) { return Some(BECH32M); }
    return None;
  }

  method CreateChecksum(e: Encoding, hrp: seq<bv8>, values: seq<bv8>) returns (ret: seq<bv8>)
    ensures ret == Checksum(e, hrp, values)
    ensures FiveBits(values) ==>
              |ret| == 6 && PolyMod(Coefficients(hrp, values) + ret) == if e.BECH32? then 1 else 0x2bc830a3
  {
    hide PolyMod, Low, Shift, Xor, Coefficients, EncodingConstant;
    var enc := PreparePolynomialCoefficients(hrp, values);
    enc := enc + SixZeroes();
    var poly := ComputePolyMod(enc);
    var mod := Xor(poly, EncodingConstant(e));
    ret := [];
    var i := 0;
    FirstShift(mod);
    while i < CHECKSUM_SIZE
      invariant 0 <= i <= CHECKSUM_SIZE && ret == Unpack(mod)[..i]
    {
      ret := ret + [Low(Shift(mod, 5 - i))];
      i := i + 1;
    }
    if FiveBits(values) {
      ChecksumVerifies(e, hrp, values);
      VerifiedRemainder(e, hrp, values, Checksum(e, hrp, values));
    }
  }

  lemma VerifiedRemainder(e: Encoding, hrp: seq<bv8>, values: seq<bv8>, cs: seq<bv8>)
    requires Verified(hrp, values + cs) == Some(e)
    ensures PolyMod(Coefficients(hrp, values) + cs) == if e.BECH32? then 1 else 0x2bc830a3
  {
    hide PolyMod;
    assert Coefficients(hrp, values + cs) == Coefficients(hrp, values) + cs;
  }

  lemma FirstShift(m: bv32)
    ensures Shift(m, 0) == m
  {
  }

  // ----- strings -----

  method Encode(e: Encoding, hrp: seq<bv8>, values: seq<bv8>) returns (ret: seq<bv8>)
    requires NoUpper(hrp) && FiveBits(values)
    ensures ret == Encoded(e, hrp, values)
  {
    hide CharOf, Checksum;
    ret := hrp + [SEPARATOR];
    var chars := ToChars(values);
    ret := ret + chars;
    var cs := CreateChecksum(e, hrp, values);
    chars := ToChars(cs);
    ret := ret + chars;
  }

  method ToChars(values: seq<bv8>) returns (chars: seq<bv8>)
    ensures chars == Chars(values)
  {
    hide CharOf;
    chars := [];
    var i := 0;
    while i < |values|
      invariant 0 <= i <= |values| && chars == Chars(values)[..i]
    {
      chars := chars + [CharOf(values[i])];
      i := i + 1;
    }
  }

  method Decode(str: seq<bv8>, limit: nat) returns (r: DecodeResult)
    ensures r == DecodedFrom(str, limit)
  {
    hide CharsOk, Rev, LowerCase, Verified;
    var ok, errors := CheckCharacters(str);
    if !ok { return Invalid; }
    var pos := FindSeparator(str);
    if |str| > limit { return Invalid; }
    if pos == -1 || pos == 0 || pos + CHECKSUM_SIZE >= |str| { return Invalid; }
    var good, values := ReadValues(str[pos + 1..]);
    if !good { return Invalid; }
    var hrp := ToLower(str[..pos]);
    var e := VerifyChecksum(hrp, values);
    if e.None? { return Invalid; }
    return Decoded(e.value, hrp, values[..|values| - CHECKSUM_SIZE]);
  }

  /** The values of characters, unless one of them has none. */
  method ReadValues(rest: seq<bv8>) returns (good: bool, values: seq<bv8>)
    ensures good <==> AllValues(rest)
    ensures good ==> values == Values(rest)
  {
    hide Rev;
    values := [];
    var i := 0;
    while i < |rest|
      invariant 0 <= i <= |rest| && values == Values(rest)[..i]
      invariant forall k | 0 <= k < i :: Rev(rest[k]) != NOT_A_VALUE
    {
      var rev := Rev(rest[i]);
      if rev == NOT_A_VALUE { return false, values; }
      assert Values(rest)[i] == rev;
      values := values + [rev];
      i := i + 1;
    }
    good := true;
  }

  method ToLower(str: seq<bv8>) returns (lower: seq<bv8>)
    ensures lower == Lowered(str)
  {
    hide LowerCase;
    lower := [];
    var i := 0;
    while i < |str|
      invariant 0 <= i <= |str| && lower == Lowered(str)[..i]
    {
      assert Lowered(str)[i] == LowerCase(str[i]);
      lower := lower + [LowerCase(str[i])];
      i := i + 1;
    }
  }

  /** The last place of the separator. */
  method FindSeparator(str: seq<bv8>) returns (pos: int)
    ensures pos == LastSeparator(str)
  {
    pos := |str| - 1;
    assert str[..|str|] == str;
    while pos >= 0
      invariant -1 <= pos < |str| && LastSeparator(str) == LastSeparator(str[..pos + 1])
    {
      if str[pos] == SEPARATOR { return; }
      assert str[..pos + 1][..pos] == str[..pos];
      pos := pos - 1;
    }
  }
}
