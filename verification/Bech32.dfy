/** Bech32 and Bech32m strings (BIP 173 and BIP 350), as lists of bytes. */
module Bech32 {
  import opened Bech32Poly
  import opened Prelude

  const SEPARATOR: bv8 := 0x31
  const CHECKSUM_SIZE := 6
  const NOT_A_VALUE: bv8 := 0xff

  datatype Encoding = BECH32 | BECH32M

  datatype DecodeResult = Invalid | Decoded(encoding: Encoding, hrp: seq<bv8>, data: seq<bv8>)

  function EncodingConstant(e: Encoding): bv32 {
    if e.BECH32? then 1 else 0x2bc830a3
  }

  /** The character for a value, as in the 32-character table "qpzry9x8gf2tvdw0s3jn54khce6mua7l". */
  function CharOf(v: bv8): bv8 {
    if v < 8 then CharA(v) else if v < 16 then CharB(v) else if v < 24 then CharC(v) else CharD(v)
  }

  function CharA(v: bv8): bv8 {
    if v == 0 then 0x71 else if v == 1 then 0x70 else if v == 2 then 0x7a else if v == 3 then 0x72
    else if v == 4 then 0x79 else if v == 5 then 0x39 else if v == 6 then 0x78 else 0x38
  }

  function CharB(v: bv8): bv8 {
    if v == 8 then 0x67 else if v == 9 then 0x66 else if v == 10 then 0x32 else if v == 11 then 0x74
    else if v == 12 then 0x76 else if v == 13 then 0x64 else if v == 14 then 0x77 else 0x30
  }

  function CharC(v: bv8): bv8 {
    if v == 16 then 0x73 else if v == 17 then 0x33 else if v == 18 then 0x6a else if v == 19 then 0x6e
    else if v == 20 then 0x35 else if v == 21 then 0x34 else if v == 22 then 0x6b else 0x68
  }

  function CharD(v: bv8): bv8 {
    if v == 24 then 0x63 else if v == 25 then 0x65 else if v == 26 then 0x36 else if v == 27 then 0x6d
    else if v == 28 then 0x75 else if v == 29 then 0x61 else if v == 30 then 0x37 else 0x6c
  }

  /** The value of a character, or NOT_A_VALUE. Upper and lower case letters have the same. */
  function Rev(c: bv8): bv8 {
    if c < 0x40 then RevDigit(c) else if c < 0x80 then RevLetter(c & 0x1f) else NOT_A_VALUE
  }

  function RevDigit(c: bv8): bv8 {
    if c == 0x30 then 15 else if c == 0x32 then 10 else if c == 0x33 then 17 else if c == 0x34 then 21
    else if c == 0x35 then 20 else if c == 0x36 then 26 else if c == 0x37 then 30 else if c == 0x38 then 7
    else if c == 0x39 then 5 else NOT_A_VALUE
  }

  function RevLetter(l: bv8): bv8 {
    if l < 16 then RevEarly(l) else RevLate(l)
  }

  function RevEarly(l: bv8): bv8 {
    if l == 1 then 29 else if l == 3 then 24 else if l == 4 then 13 else if l == 5 then 25
    else if l == 6 then 9 else if l == 7 then 8 else if l == 8 then 23 else if l == 10 then 18
    else if l == 11 then 22 else if l == 12 then 31 else if l == 13 then 27 else if l == 14 then 19
    else NOT_A_VALUE
  }

  function RevLate(l: bv8): bv8 {
    if l == 16 then 1 else if l == 17 then 0 else if l == 18 then 3 else if l == 19 then 16
    else if l == 20 then 11 else if l == 21 then 28 else if l == 22 then 12 else if l == 23 then 14
    else if l == 24 then 6 else if l == 25 then 4 else if l == 26 then 2 else NOT_A_VALUE
  }

  predicate IsLower(c: bv8) { 0x61 <= c <= 0x7a }

  predicate IsUpper(c: bv8) { 0x41 <= c <= 0x5a }

  predicate IsPrintable(c: bv8) { 33 <= c <= 126 }

  function LowerCase(c: bv8): bv8 { if IsUpper(c) then c - 0x41 + 0x61 else c }

  // ----- the two character tables -----

  predicate GoodChar(v: bv8, c: bv8) {
    Rev(c) == v && IsPrintable(c) && !IsUpper(c) && c != SEPARATOR
  }

  /** Every value has a printable character, not upper case and not the separator, that reads back as it. */
  lemma CharReads(v: bv8)
    requires v < 32
    ensures GoodChar(v, CharOf(v))
  {
    hide GoodChar, CharA, CharB, CharC, CharD;
    if v < 8 { GoodA(v); } else if v < 16 { GoodB(v); } else if v < 24 { GoodC(v); } else { GoodD(v); }
  }

  lemma GoodA(v: bv8)
    requires v < 8
    ensures GoodChar(v, CharA(v))
  {
    assert GoodChar(0, 0x71);
    assert GoodChar(1, 0x70);
    assert GoodChar(2, 0x7a);
    assert GoodChar(3, 0x72);
    assert GoodChar(4, 0x79);
    assert GoodChar(5, 0x39);
    assert GoodChar(6, 0x78);
    assert GoodChar(7, 0x38);
  }

  lemma GoodB(v: bv8)
    requires 8 <= v < 16
    ensures GoodChar(v, CharB(v))
  {
    assert GoodChar(8, 0x67);
    assert GoodChar(9, 0x66);
    assert GoodChar(10, 0x32);
    assert GoodChar(11, 0x74);
    assert GoodChar(12, 0x76);
    assert GoodChar(13, 0x64);
    assert GoodChar(14, 0x77);
    assert GoodChar(15, 0x30);
  }

  lemma GoodC(v: bv8)
    requires 16 <= v < 24
    ensures GoodChar(v, CharC(v))
  {
    assert GoodChar(16, 0x73);
    assert GoodChar(17, 0x33);
    assert GoodChar(18, 0x6a);
    assert GoodChar(19, 0x6e);
    assert GoodChar(20, 0x35);
    assert GoodChar(21, 0x34);
    assert GoodChar(22, 0x6b);
    assert GoodChar(23, 0x68);
  }

  lemma GoodD(v: bv8)
    requires 24 <= v < 32
    ensures GoodChar(v, CharD(v))
  {
    assert GoodChar(24, 0x63);
    assert GoodChar(25, 0x65);
    assert GoodChar(26, 0x36);
    assert GoodChar(27, 0x6d);
    assert GoodChar(28, 0x75);
    assert GoodChar(29, 0x61);
    assert GoodChar(30, 0x37);
    assert GoodChar(31, 0x6c);
  }

  /** A character that stands for a value stands for the one whose character is its lower case. */
  lemma ReadChars(c: bv8)
    requires Rev(c) != NOT_A_VALUE
    ensures Rev(c) < 32 && CharOf(Rev(c)) == LowerCase(c)
  {
    hide RevDigit, RevLetter, CharOf;
    if c < 0x40 {
      ReadDigit(c);
    } else {
      ReadLetter(c & 0x1f);
      assert LowerCase(c) == 0x60 | (c & 0x1f) by { LetterCase(c); }
    }
  }

  lemma ReadDigit(c: bv8)
    requires RevDigit(c) != NOT_A_VALUE
    ensures RevDigit(c) < 32 && CharOf(RevDigit(c)) == c && !IsUpper(c)
  {
  }

  lemma ReadLetter(l: bv8)
    requires RevLetter(l) != NOT_A_VALUE
    ensures RevLetter(l) < 32 && CharOf(RevLetter(l)) == 0x60 | l && 1 <= l <= 26
  {
  }

  lemma LetterCase(c: bv8)
    requires 0x40 <= c < 0x80 && 1 <= c & 0x1f <= 26
    ensures LowerCase(c) == 0x60 | (c & 0x1f)
  {
  }

  // ----- what is encoded and decoded -----

  function Chars(values: seq<bv8>): seq<bv8> {
    seq(|values|, i requires 0 <= i < |values| => CharOf(values[i]))
  }

  function Values(str: seq<bv8>): seq<bv8> {
    seq(|str|, i requires 0 <= i < |str| => Rev(str[i]))
  }

  function Lowered(str: seq<bv8>): seq<bv8> {
    seq(|str|, i requires 0 <= i < |str| => LowerCase(str[i]))
  }

  function High(c: bv8): bv8 { c >> 5 }

  function Low5(c: bv8): bv8 { c & 31 }

  function HighBits(hrp: seq<bv8>): seq<bv8> {
    seq(|hrp|, i requires 0 <= i < |hrp| => High(hrp[i]))
  }

  function LowBits(hrp: seq<bv8>): seq<bv8> {
    seq(|hrp|, i requires 0 <= i < |hrp| => Low5(hrp[i]))
  }

  function Coefficients(hrp: seq<bv8>, values: seq<bv8>): seq<bv8> {
    HighBits(hrp) + [0] + LowBits(hrp) + values
  }

  function Checksum(e: Encoding, hrp: seq<bv8>, values: seq<bv8>): seq<bv8> {
    ChecksumFor(Coefficients(hrp, values), EncodingConstant(e))
  }

  function Encoded(e: Encoding, hrp: seq<bv8>, values: seq<bv8>): seq<bv8> {
    hrp + [SEPARATOR] + Chars(values) + Chars(Checksum(e, hrp, values))
  }

  function Verified(hrp: seq<bv8>, values: seq<bv8>): Option<Encoding> {
    var check := PolyMod(Coefficients(hrp, values));
    if check == EncodingConstant(BECH32) then Some(BECH32)
    else if check == EncodingConstant(BECH32M) then Some(BECH32M)
    else None
  }

  /** All characters printable, and not both cases. */
  predicate CharsOk(str: seq<bv8>) {
    && (forall i | 0 <= i < |str| :: IsPrintable(str[i]))
    && ((forall i | 0 <= i < |str| :: !IsLower(str[i])) || (forall i | 0 <= i < |str| :: !IsUpper(str[i])))
  }

  /** The place of the last separator, or -1. */
  function LastSeparator(str: seq<bv8>): (p: int)
    ensures -1 <= p < |str|
    decreases |str|
  {
    if str == [] then -1
    else if str[|str| - 1] == SEPARATOR then |str| - 1
    else LastSeparator(str[..|str| - 1])
  }

  predicate AllValues(str: seq<bv8>) { forall i | 0 <= i < |str| :: Rev(str[i]) != NOT_A_VALUE }

  function DecodedFrom(str: seq<bv8>, limit: nat): DecodeResult {
    var pos := LastSeparator(str);
    if !CharsOk(str) || |str| > limit || pos == -1 || pos == 0 || pos + CHECKSUM_SIZE >= |str| then Invalid
    else if !AllValues(str[pos + 1..]) then Invalid
    else
      var hrp, values := Lowered(str[..pos]), Values(str[pos + 1..]);
      var e := Verified(hrp, values);
      if e.None? then Invalid else Decoded(e.value, hrp, values[..|values| - CHECKSUM_SIZE])
  }

  // ----- checksums of strings -----

  lemma ConstantsFit(e: Encoding)
    ensures EncodingConstant(e) < LIMIT
  {
  }

  lemma CoefficientsFive(hrp: seq<bv8>, values: seq<bv8>)
    requires FiveBits(values)
    ensures FiveBits(Coefficients(hrp, values))
  {
    forall i | 0 <= i < |hrp| ensures HighBits(hrp)[i] < 32 && LowBits(hrp)[i] < 32 { CharBits(hrp[i]); }
  }

  lemma CharBits(c: bv8)
    ensures High(c) < 32 && Low5(c) < 32
  {
  }

  /** The checksum that is created is the one that verifies, and only under its own encoding. */
  lemma ChecksumVerifies(e: Encoding, hrp: seq<bv8>, values: seq<bv8>)
    requires FiveBits(values)
    ensures var cs := Checksum(e, hrp, values);
            |cs| == CHECKSUM_SIZE && FiveBits(cs) && Verified(hrp, values + cs) == Some(e)
  {
    hide PolyMod, FiveBits, ChecksumFor;
    CoefficientsFive(hrp, values);
    ConstantsFit(e);
    ChecksumWorks(Coefficients(hrp, values), EncodingConstant(e));
    assert Coefficients(hrp, values + Checksum(e, hrp, values)) == Coefficients(hrp, values) + Checksum(e, hrp, values);
  }

  /** What verifies ends in the checksum that is created. */
  lemma VerifiedChecksum(e: Encoding, hrp: seq<bv8>, values: seq<bv8>, cs: seq<bv8>)
    requires FiveBits(values) && FiveBits(cs) && |cs| == CHECKSUM_SIZE && Verified(hrp, values + cs) == Some(e)
    ensures cs == Checksum(e, hrp, values)
  {
    hide PolyMod, FiveBits, ChecksumFor;
    CoefficientsFive(hrp, values);
    ConstantsFit(e);
    assert Coefficients(hrp, values + cs) == Coefficients(hrp, values) + cs;
    ChecksumUnique(Coefficients(hrp, values), cs, EncodingConstant(e));
  }

  /** Values corrupted inside a window of six consecutive places never verify under the same encoding. */
  lemma CorruptionDetected(hrp: seq<bv8>, u: seq<bv8>, v: seq<bv8>, k: nat, e: Encoding)
    requires FiveBits(u) && FiveBits(v) && DifferInWindow(u, v, k) && u != v && Verified(hrp, u) == Some(e)
    ensures Verified(hrp, v) != Some(e)
  {
    hide PolyMod, FiveBits;
    CoefficientsFive(hrp, u);
    CoefficientsFive(hrp, v);
    var front := HighBits(hrp) + [0] + LowBits(hrp);
    WindowMoves(front, u, v, k);
    CorruptionChangesPolyMod(Coefficients(hrp, u), Coefficients(hrp, v), |front| + k);
  }

  lemma WindowMoves(front: seq<bv8>, u: seq<bv8>, v: seq<bv8>, k: nat)
    requires DifferInWindow(u, v, k) && u != v
    ensures DifferInWindow(front + u, front + v, |front| + k) && front + u != front + v
  {
    assert (front + u)[..|front| + k] == front + u[..k];
    assert (front + v)[..|front| + k] == front + v[..k];
    assert (front + u)[|front| + k + 6..] == u[k + 6..];
    assert (front + v)[|front| + k + 6..] == v[k + 6..];
    assert (front + u)[|front|..] == u && (front + v)[|front|..] == v;
  }

  // ----- decoding what was encoded -----

  /** Which human-readable parts can be decoded again. */
  predicate GoodHrp(hrp: seq<bv8>) {
    hrp != [] && forall i | 0 <= i < |hrp| :: IsPrintable(hrp[i])
  }

  predicate NoUpper(str: seq<bv8>) { forall i | 0 <= i < |str| :: !IsUpper(str[i]) }

  lemma CharsFacts(values: seq<bv8>)
    requires FiveBits(values)
    ensures AllValues(Chars(values)) && Values(Chars(values)) == values && NoUpper(Chars(values))
    ensures forall i | 0 <= i < |values| :: IsPrintable(Chars(values)[i]) && Chars(values)[i] != SEPARATOR
  {
    hide CharOf, Rev, IsUpper, IsPrintable;
    forall i | 0 <= i < |values|
      ensures Rev(Chars(values)[i]) == values[i] && values[i] != NOT_A_VALUE && !IsUpper(Chars(values)[i])
              && IsPrintable(Chars(values)[i]) && Chars(values)[i] != SEPARATOR
    {
      CharReads(values[i]);
    }
  }

  lemma {:induction false} SeparatorFound(hrp: seq<bv8>, rest: seq<bv8>)
    requires forall i | 0 <= i < |rest| :: rest[i] != SEPARATOR
    ensures LastSeparator(hrp + [SEPARATOR] + rest) == |hrp|
    decreases |rest|
  {
    var str := hrp + [SEPARATOR] + rest;
    if rest == [] {
      assert str[|str| - 1] == SEPARATOR;
    } else {
      var n := |rest| - 1;
      assert str[..|str| - 1] == hrp + [SEPARATOR] + rest[..n];
      assert str[|str| - 1] == rest[n];
      SeparatorFound(hrp, rest[..n]);
    }
  }

  lemma LoweredSame(str: seq<bv8>)
    requires NoUpper(str)
    ensures Lowered(str) == str
  {
  }

  lemma CharsConcat(u: seq<bv8>, v: seq<bv8>)
    ensures Chars(u) + Chars(v) == Chars(u + v)
  {
    hide CharOf;
  }

  /** An encoded string decodes exactly when its human-readable part is good and it is short enough; then to itself. */
  lemma DecodesBack(e: Encoding, hrp: seq<bv8>, values: seq<bv8>, limit: nat)
    requires NoUpper(hrp) && FiveBits(values)
    ensures var str := Encoded(e, hrp, values);
            DecodedFrom(str, limit) ==
            if GoodHrp(hrp) && |str| <= limit then Decoded(e, hrp, values) else Invalid
  {
    hide CharOf, Rev, IsUpper, IsLower, IsPrintable, Verified, Checksum, FiveBits, LastSeparator, Chars, Values,
         Lowered;
    var cs := Checksum(e, hrp, values);
    ChecksumVerifies(e, hrp, values);
    FiveConcat(values, cs);
    CharsConcat(values, cs);
    var all := values + cs;
    CharsFacts(all);
    CharsLength(all);
    var str := Encoded(e, hrp, values);
    assert str == hrp + [SEPARATOR] + Chars(all);
    SeparatorFound(hrp, Chars(all));
    CharsOkIff(hrp, Chars(all));
    assert str[..|hrp|] == hrp && str[|hrp| + 1..] == Chars(all);
    LoweredSame(hrp);
    assert all[..|all| - CHECKSUM_SIZE] == values;
  }

  lemma CharsLength(values: seq<bv8>)
    ensures |Chars(values)| == |values|
  {
  }

  lemma SeparatorPrintable()
    ensures IsPrintable(SEPARATOR) && !IsUpper(SEPARATOR) && !IsLower(SEPARATOR)
  {
  }

  lemma CharsOkIff(hrp: seq<bv8>, rest: seq<bv8>)
    requires NoUpper(hrp) && NoUpper(rest) && forall i | 0 <= i < |rest| :: IsPrintable(rest[i])
    ensures CharsOk(hrp + [SEPARATOR] + rest) <==> forall i | 0 <= i < |hrp| :: IsPrintable(hrp[i])
  {
    hide IsUpper, IsLower, IsPrintable;
    SeparatorPrintable();
    var str := hrp + [SEPARATOR] + rest;
    if forall i | 0 <= i < |hrp| :: IsPrintable(hrp[i]) {
      forall i | 0 <= i < |str| ensures IsPrintable(str[i]) && !IsUpper(str[i]) {
        if i > |hrp| { assert str[i] == rest[i - |hrp| - 1]; }
      }
    } else {
      var i :| 0 <= i < |hrp| && !IsPrintable(hrp[i]);
      assert str[i] == hrp[i];
    }
  }

  // ----- encoding what was decoded -----

  lemma {:induction false} SeparatorThere(str: seq<bv8>)
    ensures LastSeparator(str) >= 0 ==> str[LastSeparator(str)] == SEPARATOR
    decreases |str|
  {
    if str != [] { SeparatorThere(str[..|str| - 1]); }
  }

  lemma ValuesFacts(str: seq<bv8>)
    requires AllValues(str)
    ensures FiveBits(Values(str)) && Chars(Values(str)) == Lowered(str) && |Values(str)| == |str|
  {
    hide CharOf, Rev, LowerCase;
    forall i | 0 <= i < |str| ensures Rev(str[i]) < 32 && CharOf(Rev(str[i])) == LowerCase(str[i]) {
      ReadChars(str[i]);
    }
  }

  lemma LoweredParts(str: seq<bv8>, pos: nat)
    requires pos < |str| && str[pos] == SEPARATOR
    ensures Lowered(str) == Lowered(str[..pos]) + [SEPARATOR] + Lowered(str[pos + 1..])
  {
    assert LowerCase(SEPARATOR) == SEPARATOR;
    hide LowerCase;
  }

  lemma LoweredNoUpper(str: seq<bv8>)
    ensures NoUpper(Lowered(str))
  {
    hide LowerCase, IsUpper;
    forall i | 0 <= i < |str| ensures !IsUpper(LowerCase(str[i])) { NotUpper(str[i]); }
  }

  lemma NotUpper(c: bv8)
    ensures !IsUpper(LowerCase(c))
  {
  }

  lemma Prefix5(v: seq<bv8>, n: nat)
    requires FiveBits(v) && n <= |v|
    ensures FiveBits(v[..n]) && FiveBits(v[n..])
  {
  }

  /** Every string that decodes is, up to case, the encoding of what it decodes to. */
  lemma EncodesBack(str: seq<bv8>, limit: nat)
    requires DecodedFrom(str, limit).Decoded?
    ensures var r := DecodedFrom(str, limit);
            && NoUpper(r.hrp) && r.hrp != [] && FiveBits(r.data)
            && Encoded(r.encoding, r.hrp, r.data) == Lowered(str)
  {
    hide CharOf, Rev, IsUpper, Verified, Checksum, FiveBits, Chars, Values, Lowered, CharsOk, AllValues, NoUpper;
    var r := DecodedFrom(str, limit);
    var pos := LastSeparator(str);
    SeparatorThere(str);
    LoweredParts(str, pos);
    var rest := str[pos + 1..];
    ValuesFacts(rest);
    var values := Values(rest);
    var n := |values| - CHECKSUM_SIZE;
    Prefix5(values, n);
    assert values == values[..n] + values[n..];
    VerifiedChecksum(r.encoding, r.hrp, values[..n], values[n..]);
    CharsConcat(values[..n], values[n..]);
    LoweredNoUpper(str[..pos]);
    LoweredLength(str[..pos]);
  }

  lemma LoweredLength(str: seq<bv8>)
    ensures |Lowered(str)| == |str|
  {
  }

  // ----- exactly what decodes -----

  lemma LowerCaseFacts(c: bv8)
    requires IsPrintable(c)
    ensures IsPrintable(LowerCase(c)) && !IsUpper(LowerCase(c)) && LowerCase(LowerCase(c)) == LowerCase(c)
    ensures LowerCase(c) == SEPARATOR <==> c == SEPARATOR
  {
  }

  lemma SameValue(c: bv8)
    requires IsUpper(c)
    ensures Rev(LowerCase(c)) == Rev(c)
  {
    hide RevLetter, RevDigit;
    SameLetter(c);
  }

  lemma SameLetter(c: bv8)
    requires IsUpper(c)
    ensures 0x40 <= c < 0x80 && 0x40 <= LowerCase(c) < 0x80 && LowerCase(c) & 0x1f == c & 0x1f
  {
  }

  lemma {:induction false} SeparatorLowered(str: seq<bv8>)
    requires forall i | 0 <= i < |str| :: IsPrintable(str[i])
    ensures LastSeparator(Lowered(str)) == LastSeparator(str)
    decreases |str|
  {
    hide LowerCase, IsPrintable;
    if str != [] {
      var n := |str| - 1;
      LowerCaseFacts(str[n]);
      assert Lowered(str)[..n] == Lowered(str[..n]);
      SeparatorLowered(str[..n]);
    }
  }

  lemma LoweredTwice(str: seq<bv8>)
    requires forall i | 0 <= i < |str| :: IsPrintable(str[i])
    ensures Lowered(Lowered(str)) == Lowered(str) && Values(Lowered(str)) == Values(str)
    ensures AllValues(Lowered(str)) <==> AllValues(str)
    ensures CharsOk(Lowered(str))
  {
    hide LowerCase, IsPrintable, IsUpper, IsLower, Rev;
    forall i | 0 <= i < |str|
      ensures LowerCase(LowerCase(str[i])) == LowerCase(str[i]) && Rev(LowerCase(str[i])) == Rev(str[i])
              && IsPrintable(LowerCase(str[i])) && !IsUpper(LowerCase(str[i]))
    {
      LowerCaseFacts(str[i]);
      if IsUpper(str[i]) { SameValue(str[i]); } else { NotLowered(str[i]); }
    }
    assert Values(Lowered(str)) == Values(str);
    if AllValues(Lowered(str)) {
      forall i | 0 <= i < |str| ensures Rev(str[i]) != NOT_A_VALUE {
        assert Rev(Lowered(str)[i]) != NOT_A_VALUE;
      }
    }
  }

  lemma NotLowered(c: bv8)
    requires !IsUpper(c)
    ensures LowerCase(c) == c
  {
  }

  /** A string in capitals decodes like the same string in small letters. */
  lemma CaseDoesNotMatter(str: seq<bv8>, limit: nat)
    requires CharsOk(str)
    ensures DecodedFrom(Lowered(str), limit) == DecodedFrom(str, limit)
  {
    hide LowerCase, IsPrintable, IsUpper, IsLower, Rev, Verified, LastSeparator, Values, AllValues, CharsOk;
    Printable(str);
    LoweredTwice(str);
    SeparatorLowered(str);
    var pos := LastSeparator(str);
    if pos >= 0 {
      assert Lowered(str)[..pos] == Lowered(str[..pos]);
      assert Lowered(str)[pos + 1..] == Lowered(str[pos + 1..]);
      LoweredTwice(str[..pos]);
      LoweredTwice(str[pos + 1..]);
    }
  }

  lemma Printable(str: seq<bv8>)
    requires CharsOk(str)
    ensures forall i | 0 <= i < |str| :: IsPrintable(str[i])
  {
  }

  /** All characters from 33 to 126, and not a small and a capital letter together. */
  predicate Acceptable(str: seq<bv8>) {
    && (forall i | 0 <= i < |str| :: 33 <= str[i] <= 126)
    && (forall i, j | 0 <= i < |str| && 0 <= j < |str| :: !(0x61 <= str[i] <= 0x7a && 0x41 <= str[j] <= 0x5a))
  }

  lemma AcceptableIff(str: seq<bv8>)
    ensures CharsOk(str) <==> Acceptable(str)
  {
    if Acceptable(str) && exists i :: 0 <= i < |str| && IsLower(str[i]) {
      var i :| 0 <= i < |str| && IsLower(str[i]);
      forall j | 0 <= j < |str| ensures !IsUpper(str[j]) {}
    }
  }

  /**
    A string decodes to something if and only if it is acceptable, short enough and, in small letters, the encoding of
    that something, which has a human-readable part.
   */
  lemma DecodesExactly(str: seq<bv8>, limit: nat, e: Encoding, hrp: seq<bv8>, data: seq<bv8>)
    ensures DecodedFrom(str, limit) == Decoded(e, hrp, data) <==>
            && Acceptable(str) && |str| <= limit
            && hrp != [] && NoUpper(hrp) && FiveBits(data) && Lowered(str) == Encoded(e, hrp, data)
  {
    hide DecodedFrom, CharsOk, Acceptable, Encoded, FiveBits, NoUpper, Lowered;
    AcceptableIff(str);
    if DecodedFrom(str, limit).Decoded? {
      EncodesBack(str, limit);
      DecodedIsOk(str, limit);
    }
    if CharsOk(str) && |str| <= limit && hrp != [] && NoUpper(hrp) && FiveBits(data)
       && Lowered(str) == Encoded(e, hrp, data) {
      CaseDoesNotMatter(str, limit);
      DecodesBack(e, hrp, data, limit);
      FrontIsGood(str, e, hrp, data);
    }
  }

  lemma DecodedIsOk(str: seq<bv8>, limit: nat)
    requires DecodedFrom(str, limit).Decoded?
    ensures CharsOk(str) && |str| <= limit
  {
  }

  lemma FrontIsGood(str: seq<bv8>, e: Encoding, hrp: seq<bv8>, data: seq<bv8>)
    requires CharsOk(str) && hrp != [] && Lowered(str) == Encoded(e, hrp, data)
    ensures GoodHrp(hrp) && |Encoded(e, hrp, data)| == |str|
  {
    hide CharOf, LowerCase, IsPrintable, Checksum, Chars;
    forall i | 0 <= i < |hrp| ensures IsPrintable(hrp[i]) {
      assert Encoded(e, hrp, data)[i] == hrp[i] == LowerCase(str[i]);
      LowerCaseFacts(str[i]);
    }
  }

  // ----- the table of characters -----

  const CHARSET := "qpzry9x8gf2tvdw0s3jn54khce6mua7l"

  /** The character for a value is the one at that place of the table. */
  lemma CharsetIs(v: bv8)
    requires v < 32
    ensures |CHARSET| == 32 && CharOf(v) as int == CHARSET[v as int] as int
  {
    hide CharA, CharB, CharC, CharD;
    if v < 8 {
      FirstEight(v);
    } else if v < 16 {
      SecondEight(v);
    } else if v < 24 {
      ThirdEight(v);
    } else {
      FourthEight(v);
    }
  }

  lemma FirstEight(v: bv8)
    requires v < 8
    ensures |CHARSET| == 32 && CharA(v) as int == CHARSET[v as int] as int
  {
    assert CHARSET[0] == 'q' && CHARSET[1] == 'p' && CHARSET[2] == 'z' && CHARSET[3] == 'r';
    assert CHARSET[4] == 'y' && CHARSET[5] == '9' && CHARSET[6] == 'x' && CHARSET[7] == '8';
  }

  lemma SecondEight(v: bv8)
    requires 8 <= v < 16
    ensures |CHARSET| == 32 && CharB(v) as int == CHARSET[v as int] as int
  {
    assert CHARSET[8] == 'g' && CHARSET[9] == 'f' && CHARSET[10] == '2' && CHARSET[11] == 't';
    assert CHARSET[12] == 'v' && CHARSET[13] == 'd' && CHARSET[14] == 'w' && CHARSET[15] == '0';
  }

  lemma ThirdEight(v: bv8)
    requires 16 <= v < 24
    ensures |CHARSET| == 32 && CharC(v) as int == CHARSET[v as int] as int
  {
    assert CHARSET[16] == 's' && CHARSET[17] == '3' && CHARSET[18] == 'j' && CHARSET[19] == 'n';
    assert CHARSET[20] == '5' && CHARSET[21] == '4' && CHARSET[22] == 'k' && CHARSET[23] == 'h';
  }

  lemma FourthEight(v: bv8)
    requires 24 <= v < 32
    ensures |CHARSET| == 32 && CharD(v) as int == CHARSET[v as int] as int
  {
    assert CHARSET[24] == 'c' && CHARSET[25] == 'e' && CHARSET[26] == '6' && CHARSET[27] == 'm';
    assert CHARSET[28] == 'u' && CHARSET[29] == 'a' && CHARSET[30] == '7' && CHARSET[31] == 'l';
  }
}
