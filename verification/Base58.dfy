/** Base 58 strings, as lists of character codes, and the byte strings they stand for. */
module Base58 {
  import opened Digits
  import opened Numbers
  import opened Prelude

  /** The code of '1', the character for the digit zero. */
  const ONE := 49

  /** The code of a digit's character: all letters and digits but 0, I, O and l. */
  function Base58Char(d: int): int {
    if d < 9 then 49 + d
    else if d < 17 then 65 + d - 9
    else if d < 22 then 74 + d - 17
    else if d < 33 then 80 + d - 22
    else if d < 44 then 97 + d - 33
    else 109 + d - 44
  }

  /** The digit of a character, or -1. */
  function MapBase58(c: int): int {
    if 49 <= c <= 57 then c - 49
    else if 65 <= c <= 72 then c - 65 + 9
    else if 74 <= c <= 78 then c - 74 + 17
    else if 80 <= c <= 90 then c - 80 + 22
    else if 97 <= c <= 107 then c - 97 + 33
    else if 109 <= c <= 122 then c - 109 + 44
    else -1
  }

  predicate IsSpace(c: int) { c == 32 || c == 12 || c == 10 || c == 13 || c == 9 || c == 11 }

  /** How often x stands at the front. */
  function Leading(s: seq<int>, x: int): (n: nat)
    ensures n <= |s|
  {
    if s != [] && s[0] == x then 1 + Leading(s[1..], x) else 0
  }

  function Repeated(n: nat, x: int): seq<int> { seq(n, _ => x) }

  function Chars(d: seq<int>): seq<int> { seq(|d|, i requires 0 <= i < |d| => Base58Char(d[i])) }

  function DigitValues(w: seq<int>): seq<int> { seq(|w|, i requires 0 <= i < |w| => MapBase58(w[i])) }

  /** A one for each leading zero byte, then the rest as a number in base 58. */
  ghost function Encoded(input: seq<int>): seq<int>
    requires Below(input, 256)
  {
    ValueBound(input, 256);
    Repeated(Leading(input, 0), ONE) + Chars(DigitsOf(Value(input, 256), 58))
  }

  function SkipSpaces(s: seq<int>): (r: seq<int>)
    ensures |r| <= |s|
  {
    if s != [] && IsSpace(s[0]) then SkipSpaces(s[1..]) else s
  }

  /** The characters up to the first space. */
  function Word(s: seq<int>): (r: seq<int>)
    ensures |r| <= |s| && r == s[..|r|]
  {
    if s == [] || IsSpace(s[0]) then [] else [s[0]] + Word(s[1..])
  }

  predicate AllDigits(w: seq<int>) { forall i | 0 <= i < |w| :: MapBase58(w[i]) != -1 }

  lemma DigitRange(w: seq<int>)
    requires AllDigits(w)
    ensures Below(DigitValues(w), 58)
  {
  }

  /**
   * What a string stands for: optional spaces around ones and a number in base 58; at most max bytes. The limit is
   * looked at only when there is a one or a digit, so the empty result passes even a negative limit.
   */
  ghost function Decoded(str: seq<int>, max: int): Option<seq<int>> {
    var t := SkipSpaces(str);
    var ones := Leading(t, ONE);
    var w := Word(t[ones..]);
    if 0 in str || !AllDigits(w) || SkipSpaces(t[ones + |w|..]) != [] then None
    else
      DigitRange(w);
      ValueBound(DigitValues(w), 58);
      var bytes := DigitsOf(Value(DigitValues(w), 58), 256);
      if ones + |bytes| > Max(0, max) then None else Some(Repeated(ones, 0) + bytes)
  }

  // ----- the tables -----

  lemma CharMaps(d: int)
    requires 0 <= d < 58
    ensures MapBase58(Base58Char(d)) == d && !IsSpace(Base58Char(d)) && Base58Char(d) != 0
    ensures Base58Char(d) == ONE <==> d == 0
  {
  }

  lemma MapChars(c: int)
    requires MapBase58(c) != -1
    ensures 0 <= MapBase58(c) < 58 && Base58Char(MapBase58(c)) == c && (MapBase58(c) == 0 <==> c == ONE)
  {
  }

  lemma CharsFacts(d: seq<int>)
    requires Below(d, 58)
    ensures DigitValues(Chars(d)) == d && AllDigits(Chars(d))
    ensures forall i | 0 <= i < |d| :: !IsSpace(Chars(d)[i]) && Chars(d)[i] != 0
    ensures d != [] && d[0] != 0 ==> Chars(d)[0] != ONE
  {
    hide MapBase58, Base58Char, IsSpace;
    forall i | 0 <= i < |d|
      ensures MapBase58(Chars(d)[i]) == d[i] && !IsSpace(Chars(d)[i]) && Chars(d)[i] != 0
    {
      CharMaps(d[i]);
    }
    if d != [] { CharMaps(d[0]); }
  }

  lemma DigitsFactsOf(w: seq<int>)
    requires AllDigits(w)
    ensures Chars(DigitValues(w)) == w && (w != [] && w[0] != ONE ==> DigitValues(w)[0] != 0)
  {
    hide MapBase58, Base58Char;
    forall i | 0 <= i < |w| ensures Base58Char(MapBase58(w[i])) == w[i] { MapChars(w[i]); }
    if w != [] { MapChars(w[0]); }
  }

  // ----- leading elements, spaces and words -----

  lemma {:induction false} LeadingRepeated(n: nat, x: int, s: seq<int>)
    requires s == [] || s[0] != x
    ensures Leading(Repeated(n, x) + s, x) == n
  {
    var all := Repeated(n, x) + s;
    if n > 0 {
      assert all[1..] == Repeated(n - 1, x) + s;
      LeadingRepeated(n - 1, x, s);
    }
  }

  lemma {:induction false} LeadingFacts(s: seq<int>, x: int)
    ensures var n := Leading(s, x);
            s == Repeated(n, x) + s[n..] && (n < |s| ==> s[n] != x)
  {
    if s != [] && s[0] == x {
      LeadingFacts(s[1..], x);
      var n := Leading(s, x);
      assert s[1..][n - 1..] == s[n..];
      assert s == [x] + s[1..];
      assert Repeated(n, x) == [x] + Repeated(n - 1, x);
    } else {
      assert s[0..] == s;
    }
  }

  lemma {:induction false} WordAll(w: seq<int>, tail: seq<int>)
    requires (forall i | 0 <= i < |w| :: !IsSpace(w[i])) && (tail == [] || IsSpace(tail[0]))
    ensures Word(w + tail) == w
  {
    hide IsSpace;
    var s := w + tail;
    if w == [] {
      assert s == tail;
    } else {
      assert s[1..] == w[1..] + tail;
      WordAll(w[1..], tail);
      assert w == [w[0]] + w[1..];
    }
  }

  lemma {:induction false} WordFacts(s: seq<int>)
    ensures forall i | 0 <= i < |Word(s)| :: !IsSpace(s[i])
    ensures |Word(s)| < |s| ==> IsSpace(s[|Word(s)|])
  {
    hide IsSpace;
    if s != [] && !IsSpace(s[0]) {
      WordFacts(s[1..]);
      forall i | 0 <= i < |Word(s)| ensures !IsSpace(s[i]) {
        if i > 0 { assert s[i] == s[1..][i - 1]; }
      }
    }
  }

  // ----- decoding what was encoded -----

  /** The encoding of a byte string decodes to it when the limit allows, and is refused otherwise. */
  lemma DecodesBack(input: seq<int>, max: int)
    requires Below(input, 256)
    ensures Decoded(Encoded(input), max) == if |input| <= Max(0, max) then Some(input) else None
  {
    hide Encoded, Decoded, IsSpace, Below;
    EncodedPlain(input);
    assert Encoded(input) + [] == Encoded(input);
    PaddedDecodes(input, [], Encoded(input), max);
  }

  lemma EncodedPlain(input: seq<int>)
    requires Below(input, 256)
    ensures SkipSpaces(Encoded(input)) == Encoded(input) && 0 !in Encoded(input)
  {
    hide DigitsOf, Value, Leading, IsSpace, Below, Chars;
    ValueBound(input, 256);
    DigitsFacts(Value(input, 256), 58);
    var d := DigitsOf(Value(input, 256), 58);
    CharsFacts(d);
    CharsLength(d);
    OnesAndChars(Leading(input, 0), Chars(d));
  }

  /** So does any string that is the encoding with spaces around it. */
  lemma PaddedDecodes(input: seq<int>, tail: seq<int>, str: seq<int>, max: int)
    requires Below(input, 256) && SkipSpaces(str) == Encoded(input) + tail && SkipSpaces(tail) == [] && 0 !in str
    ensures Decoded(str, max) == if |input| <= Max(0, max) then Some(input) else None
  {
    hide DigitsOf, Value, Leading, Word, Chars, DigitValues, AllDigits, IsSpace, Below, SkipSpaces;
    var z := Leading(input, 0);
    var rest := input[z..];
    LeadingFacts(input, 0);
    BelowTail(input, z, 256);
    ValueZeroes(z, rest, 256);
    ValueBound(input, 256);
    DigitsUnique(rest, 256);
    var n := Value(input, 256);
    var d := DigitsOf(n, 58);
    DigitsFacts(n, 58);
    CharsFacts(d);
    CharsLength(d);
    var t := SkipSpaces(str);
    assert t == Repeated(z, ONE) + (Chars(d) + tail);
    TailStarts(Chars(d), tail);
    LeadingRepeated(z, ONE, Chars(d) + tail);
    assert t[z..] == Chars(d) + tail;
    WordAll(Chars(d), tail);
    assert t[z + |d|..] == tail;
  }

  lemma TailStarts(w: seq<int>, tail: seq<int>)
    requires (w != [] ==> w[0] != ONE) && SkipSpaces(tail) == []
    ensures w + tail == [] || (w + tail)[0] != ONE
    ensures tail == [] || IsSpace(tail[0])
  {
  }

  lemma CharsLength(d: seq<int>)
    ensures |Chars(d)| == |d|
  {
  }

  lemma BelowTail(s: seq<int>, n: nat, base: int)
    requires n <= |s| && Below(s, base)
    ensures Below(s[n..], base)
  {
  }

  lemma OnesAndChars(z: nat, w: seq<int>)
    requires forall i | 0 <= i < |w| :: !IsSpace(w[i]) && w[i] != 0
    ensures var str := Repeated(z, ONE) + w; SkipSpaces(str) == str && 0 !in str
  {
    var str := Repeated(z, ONE) + w;
    assert !IsSpace(ONE);
    if str != [] { assert str[0] == ONE || str[0] == w[0]; }
    forall i | 0 <= i < |str| ensures str[i] != 0 {
      if i >= z { assert str[i] == w[i - z]; }
    }
  }

  // ----- encoding what was decoded -----

  function TrimRight(s: seq<int>): seq<int>
    decreases |s|
  {
    if s != [] && IsSpace(s[|s| - 1]) then TrimRight(s[..|s| - 1]) else s
  }

  /** Without the spaces on both sides. */
  function Trimmed(str: seq<int>): seq<int> { TrimRight(SkipSpaces(str)) }

  lemma {:induction false} TrimsSpaces(w: seq<int>, tail: seq<int>)
    requires (w != [] ==> !IsSpace(w[|w| - 1])) && SkipSpaces(tail) == []
    ensures TrimRight(w + tail) == w
    decreases |tail|
  {
    hide IsSpace;
    var s := w + tail;
    if tail == [] {
      assert s == w;
    } else {
      OnlySpaces(tail);
      var n := |tail| - 1;
      assert s[..|s| - 1] == w + tail[..n];
      SpacesSkipped(tail[..n]);
      TrimsSpaces(w, tail[..n]);
    }
  }

  lemma {:induction false} OnlySpaces(s: seq<int>)
    requires SkipSpaces(s) == []
    ensures forall i | 0 <= i < |s| :: IsSpace(s[i])
  {
    hide IsSpace;
    if s != [] {
      OnlySpaces(s[1..]);
      forall i | 0 <= i < |s| ensures IsSpace(s[i]) {
        if i > 0 { assert s[i] == s[1..][i - 1]; }
      }
    }
  }

  lemma {:induction false} SpacesSkipped(s: seq<int>)
    requires forall i | 0 <= i < |s| :: IsSpace(s[i])
    ensures SkipSpaces(s) == []
  {
    hide IsSpace;
    if s != [] { SpacesSkipped(s[1..]); }
  }

  /** A string that decodes is, without the spaces around it, the encoding of what it decodes to. */
  lemma EncodesBack(str: seq<int>, max: int)
    requires Decoded(str, max).Some?
    ensures Below(Decoded(str, max).value, 256) && Encoded(Decoded(str, max).value) == Trimmed(str)
  {
    hide Encoded, Decoded, IsSpace, Below, SkipSpaces, TrimRight, AllDigits;
    var ones, w, tail := DecodedParts(str, max);
    Reencoded(ones, w);
    LastNotSpace(ones, w);
    TrimsSpaces(Repeated(ones, ONE) + w, tail);
  }

  /** What decodes is ones, a word of digits that does not begin with a one, and spaces. */
  lemma DecodedParts(str: seq<int>, max: int) returns (ones: nat, w: seq<int>, tail: seq<int>)
    requires Decoded(str, max).Some?
    ensures SkipSpaces(str) == Repeated(ones, ONE) + w + tail && SkipSpaces(tail) == []
    ensures AllDigits(w) && (w != [] ==> w[0] != ONE) && forall i | 0 <= i < |w| :: !IsSpace(w[i])
    ensures Value(DigitValues(w), 58) >= 0
    ensures Decoded(str, max).value == Repeated(ones, 0) + DigitsOf(Value(DigitValues(w), 58), 256)
  {
    hide DigitsOf, Value, Leading, Word, DigitValues, AllDigits, IsSpace, SkipSpaces;
    var t := SkipSpaces(str);
    ones := Leading(t, ONE);
    LeadingFacts(t, ONE);
    w := Word(t[ones..]);
    WordFacts(t[ones..]);
    tail := t[ones + |w|..];
    WordParts(t, ones, w);
    DigitRange(w);
    ValueBound(DigitValues(w), 58);
  }

  lemma WordParts(t: seq<int>, ones: nat, w: seq<int>)
    requires ones + |w| <= |t| && t == Repeated(ones, ONE) + t[ones..] && w == t[ones..][..|w|]
    ensures t == Repeated(ones, ONE) + w + t[ones + |w|..]
  {
    assert t[ones..][|w|..] == t[ones + |w|..];
    assert t[ones..] == w + t[ones + |w|..];
  }

  /** Ones and digits stand for the bytes that they encode. */
  lemma Reencoded(ones: nat, w: seq<int>)
    requires AllDigits(w) && (w != [] ==> w[0] != ONE)
    ensures var n := Value(DigitValues(w), 58);
            && n >= 0 && Below(Repeated(ones, 0) + DigitsOf(n, 256), 256)
            && Encoded(Repeated(ones, 0) + DigitsOf(n, 256)) == Repeated(ones, ONE) + w
  {
    hide DigitsOf, Value, Leading, Chars, DigitValues, AllDigits, Below;
    DigitRange(w);
    ValueBound(DigitValues(w), 58);
    DigitsFactsOf(w);
    ValuesLength(w);
    DigitsUnique(DigitValues(w), 58);
    var n := Value(DigitValues(w), 58);
    var bytes := DigitsOf(n, 256);
    DigitsFacts(n, 256);
    BelowJoin(ones, bytes);
    ValueZeroes(ones, bytes, 256);
    assert Repeated(ones, 0) == seq(ones, _ => 0);
    LeadingRepeated(ones, 0, bytes);
  }

  lemma ValuesLength(w: seq<int>)
    ensures |DigitValues(w)| == |w|
  {
  }

  lemma BelowJoin(n: nat, s: seq<int>)
    requires Below(s, 256)
    ensures Below(Repeated(n, 0) + s, 256)
  {
  }

  lemma LastNotSpace(ones: nat, w: seq<int>)
    requires forall i | 0 <= i < |w| :: !IsSpace(w[i])
    ensures var front := Repeated(ones, ONE) + w; front != [] ==> !IsSpace(front[|front| - 1])
  {
    assert !IsSpace(ONE);
  }

  // ----- exactly what decodes -----

  lemma {:induction false} TrimTail(s: seq<int>) returns (tail: seq<int>)
    ensures s == TrimRight(s) + tail && SkipSpaces(tail) == []
    decreases |s|
  {
    hide IsSpace;
    if s != [] && IsSpace(s[|s| - 1]) {
      var before := TrimTail(s[..|s| - 1]);
      tail := before + [s[|s| - 1]];
      OnlySpaces(before);
      SpacesSkipped(tail);
      assert s == s[..|s| - 1] + [s[|s| - 1]];
    } else {
      tail := [];
      assert s + [] == s;
    }
  }

  /**
    A string decodes to some bytes if and only if it holds no NUL and, without the spaces around it, is the encoding of
    those bytes, and they are within the limit.
   */
  lemma DecodesExactly(str: seq<int>, max: int, d: seq<int>)
    ensures Decoded(str, max) == Some(d) <==>
            0 !in str && Below(d, 256) && |d| <= Max(0, max) && Encoded(d) == Trimmed(str)
  {
    hide Encoded, Decoded, IsSpace, Below, SkipSpaces, TrimRight;
    if Decoded(str, max) == Some(d) {
      EncodesBack(str, max);
      AcceptedFacts(str, max);
    }
    if 0 !in str && Below(d, 256) && |d| <= Max(0, max) && Encoded(d) == Trimmed(str) {
      var tail := TrimTail(SkipSpaces(str));
      PaddedDecodes(d, tail, str, max);
    }
  }

  lemma AcceptedFacts(str: seq<int>, max: int)
    requires Decoded(str, max).Some?
    ensures 0 !in str && |Decoded(str, max).value| <= Max(0, max)
  {
    hide DigitsOf, Value, Leading, Word, DigitValues, AllDigits, IsSpace, SkipSpaces;
  }

  /** The encoding is one 1 for each leading zero byte, then the digits of the same number without a leading zero. */
  lemma EncodedMeans(input: seq<int>)
    requires Below(input, 256)
    ensures var z, s := Leading(input, 0), Encoded(input);
            && z <= |s| && (forall i | 0 <= i < z :: s[i] == ONE) && (z < |s| ==> s[z] != ONE)
            && AllDigits(s[z..]) && Value(DigitValues(s[z..]), 58) == Value(input, 256)
  {
    hide DigitsOf, Value, Leading, IsSpace, Below, Chars, AllDigits, DigitValues;
    ValueBound(input, 256);
    var n := Value(input, 256);
    DigitsFacts(n, 58);
    var d := DigitsOf(n, 58);
    CharsFacts(d);
    CharsLength(d);
    assert Encoded(input)[Leading(input, 0)..] == Chars(d);
  }

  /** Spaces are the blank and the characters from tab to carriage return. */
  lemma SpacesAre(c: int)
    ensures IsSpace(c) <==> c == 32 || 9 <= c <= 13
  {
  }

  // ----- the alphabet -----

  const DIGITS := "123456789"
  const A_TO_H := "ABCDEFGH"
  const J_TO_N := "JKLMN"
  const P_TO_Z := "PQRSTUVWXYZ"
  const SMALL_A_TO_K := "abcdefghijk"
  const SMALL_M_TO_Z := "mnopqrstuvwxyz"

  /** "123456789ABCDEFGHJKLMNPQRSTUVWXYZabcdefghijkmnopqrstuvwxyz" */
  const ALPHABET := DIGITS + A_TO_H + J_TO_N + P_TO_Z + SMALL_A_TO_K + SMALL_M_TO_Z

  /** The character of a digit is the one at that place of the alphabet. */
  lemma AlphabetIs(d: nat)
    requires d < 58
    ensures |ALPHABET| == 58 && Base58Char(d) == ALPHABET[d] as int
  {
    hide Base58Char;
    Sizes();
    if d < 9 {
      InDigits(d);
    } else if d < 17 {
      InAToH(d);
    } else if d < 22 {
      InJToN(d);
    } else if d < 33 {
      InPToZ(d);
    } else if d < 44 {
      InSmallAToK(d);
    } else {
      InSmallMToZ(d);
    }
  }

  lemma Sizes()
    ensures |DIGITS| == 9 && |A_TO_H| == 8 && |J_TO_N| == 5 && |P_TO_Z| == 11
    ensures |SMALL_A_TO_K| == 11 && |SMALL_M_TO_Z| == 14
  {
  }

  lemma InDigits(d: nat)
    requires d < 9
    ensures |DIGITS| == 9 && Base58Char(d) == DIGITS[d] as int
  {
  }

  lemma InAToH(d: nat)
    requires 9 <= d < 17
    ensures |A_TO_H| == 8 && Base58Char(d) == A_TO_H[d - 9] as int
  {
  }

  lemma InJToN(d: nat)
    requires 17 <= d < 22
    ensures |J_TO_N| == 5 && Base58Char(d) == J_TO_N[d - 17] as int
  {
  }

  lemma InPToZ(d: nat)
    requires 22 <= d < 33
    ensures |P_TO_Z| == 11 && Base58Char(d) == P_TO_Z[d - 22] as int
  {
  }

  lemma InSmallAToK(d: nat)
    requires 33 <= d < 44
    ensures |SMALL_A_TO_K| == 11 && Base58Char(d) == SMALL_A_TO_K[d - 33] as int
  {
  }

  lemma InSmallMToZ(d: nat)
    requires 44 <= d < 58
    ensures |SMALL_M_TO_Z| == 14 && Base58Char(d) == SMALL_M_TO_Z[d - 44] as int
  {
  }
}
