/** The in-place base conversions of the Base 58 codec. */
module Base58Code {
  import opened Base58
  import opened Digits
  import opened Numbers
  import opened Prelude

  /** The last `length` digits are the number's digits; all before them are zero. */
  ghost predicate Holds(s: seq<int>, base: nat, length: nat, v: int) {
    && base >= 2 && length <= |s| && Below(s, base) && v >= 0
    && s == Repeated(|s| - length, 0) + DigitsOf(v, base)
  }

  /**
   * The inner loop of both conversions: b = b * mul + carry, on `length` digits at the end of the buffer.
   * The buffer is large enough for the result, so the carry ends at zero.
   */
  method MulAdd(b: array<int>, base: nat, mul: nat, add: nat, length: nat, ghost v: int) returns (newLength: nat)
    requires mul >= 1 && Holds(b[..], base, length, v) && v * mul + add < Pow(base, b.Length)
    modifies b
    ensures v * mul + add >= 0 && Holds(b[..], base, newLength, v * mul + add)
  {
    hide Value, DigitsOf, Pow;
    ghost var s := b[..];
    ghost var total := v * mul + add;
    var carry, i: nat := add, 0;
    LoopStarts(s, base, mul, add, length, v);
    while (carry != 0 || i < length) && i < b.Length
      invariant 0 <= i <= b.Length && carry >= 0
      invariant Converting(s, b[..], base, mul, add, carry, i)
      invariant i > length ==> total >= Pow(base, i - 1)
      decreases b.Length - i
    {
      var at := b.Length - 1 - i;
      ghost var t := b[..];
      StillOld(s, t, base, mul, add, carry, i);
      if i >= length { CarryIsLarge(s, t, base, mul, add, carry, i, length, v); }
      carry := carry + mul * b[at];
      b[at] := carry % base;
      assert b[..] == t[at := carry % base];
      ConvertStep(s, t, base, mul, add, carry, i);
      QuotientBounds(carry, base);
      carry := carry / base;
      i := i + 1;
    }
    NoCarryLeft(s, b[..], base, mul, add, carry, i, length, v);
    assert carry == 0;
    newLength := i;
  }

  /** The last i digits were converted and leave a carry; those before are as they were. */
  ghost predicate Converting(s: seq<int>, t: seq<int>, base: nat, mul: nat, add: nat, carry: int, i: nat) {
    && base >= 2 && |s| == |t| && i <= |s| && Below(s, base) && Below(t, base) && carry >= 0
    && t[..|t| - i] == s[..|s| - i]
    && Value(t[|t| - i..], base) + carry * Pow(base, i) == Value(s[|s| - i..], base) * mul + add
  }

  lemma LoopStarts(s: seq<int>, base: nat, mul: nat, add: nat, length: nat, v: int)
    requires Holds(s, base, length, v)
    ensures Converting(s, s, base, mul, add, add, 0)
  {
    assert s[|s|..] == [];
  }

  lemma StillOld(s: seq<int>, t: seq<int>, base: nat, mul: nat, add: nat, carry: int, i: nat)
    requires Converting(s, t, base, mul, add, carry, i) && i < |s|
    ensures t[|t| - 1 - i] == s[|s| - 1 - i] && 0 <= s[|s| - 1 - i] < base
  {
    assert t[..|t| - i][|t| - 1 - i] == s[..|s| - i][|s| - 1 - i];
  }

  lemma ConvertStep(s: seq<int>, t: seq<int>, base: nat, mul: nat, add: nat, sum: int, i: nat)
    requires i < |s| == |t| && base >= 2
    requires Converting(s, t, base, mul, add, sum - mul * s[|s| - 1 - i], i) && sum >= 0
    ensures sum / base >= 0 && Converting(s, t[|t| - 1 - i := sum % base], base, mul, add, sum / base, i + 1)
  {
    hide Value, Pow;
    var at := |s| - 1 - i;
    var t' := t[at := sum % base];
    QuotientBounds(sum, base);
    assert t'[..at] == t[..|t| - i][..at] == s[..|s| - i][..at] == s[..at];
    assert t'[at..] == [sum % base] + t[at + 1..];
    assert s[at..] == [s[at]] + s[at + 1..];
    ValueFront(sum % base, t[at + 1..], base);
    ValueFront(s[at], s[at + 1..], base);
    PowNext(base, i);
    StepAlgebra(sum, mul, s[at], base, Pow(base, i), Value(t[at + 1..], base), Value(s[at + 1..], base), add);
  }

  lemma PowNext(base: nat, i: nat)
    requires base >= 1
    ensures Pow(base, i + 1) == base * Pow(base, i)
  {
  }

  lemma StepAlgebra(sum: int, mul: int, x: int, base: int, p: int, low: int, old': int, add: int)
    requires base >= 2 && low + (sum - mul * x) * p == old' * mul + add
    ensures (sum % base) * p + low + (sum / base) * (base * p) == (x * p + old') * mul + add
  {
    assert sum == (sum / base) * base + sum % base;
    assert (sum / base) * (base * p) + (sum % base) * p == sum * p;
    assert (sum - mul * x) * p == sum * p - (x * p) * mul;
    assert (x * p + old') * mul == (x * p) * mul + old' * mul;
  }

  /** Past the old digits the whole number was converted. */
  lemma WholeConverted(s: seq<int>, t: seq<int>, base: nat, mul: nat, add: nat, carry: int, i: nat, length: nat, v: int)
    requires Converting(s, t, base, mul, add, carry, i) && Holds(s, base, length, v) && i >= length
    ensures Value(t[|t| - i..], base) + carry * Pow(base, i) == v * mul + add
    ensures t[..|t| - i] == Repeated(|t| - i, 0)
  {
    hide Pow, DigitsOf, Value, Repeated;
    var d := DigitsOf(v, base);
    DigitsFacts(v, base);
    HeldParts(s, length, i, d);
    ValueZeroes(i - length, d, base);
  }

  /** The last i places of zeroes followed by the digits d, and the places before them. */
  lemma HeldParts(s: seq<int>, length: nat, i: nat, d: seq<int>)
    requires length <= i <= |s| && s == Repeated(|s| - length, 0) + d
    ensures s[|s| - i..] == seq(i - length, _ => 0) + d && s[..|s| - i] == Repeated(|s| - i, 0)
  {
    assert |d| == length;
  }

  lemma CarryIsLarge(s: seq<int>, t: seq<int>, base: nat, mul: nat, add: nat, carry: int, i: nat, length: nat, v: int)
    requires Converting(s, t, base, mul, add, carry, i) && Holds(s, base, length, v) && i >= length && carry > 0
    ensures v * mul + add >= Pow(base, i)
  {
    hide Pow;
    WholeConverted(s, t, base, mul, add, carry, i, length, v);
    BelowTail(t, |t| - i, base);
    ValueBound(t[|t| - i..], base);
    MulOrder(1, carry, Pow(base, i));
  }

  /** The result fits, so nothing is carried out of the buffer, and the digits in use start with a non-zero one. */
  lemma NoCarryLeft(s: seq<int>, t: seq<int>, base: nat, mul: nat, add: nat, carry: int, i: nat, length: nat, v: int)
    requires Converting(s, t, base, mul, add, carry, i) && Holds(s, base, length, v) && mul >= 1
    requires (carry == 0 && i >= length) || i == |s|
    requires v * mul + add < Pow(base, |s|) && (i > length ==> v * mul + add >= Pow(base, i - 1))
    ensures carry == 0 && v * mul + add >= 0 && Holds(t, base, i, v * mul + add)
  {
    hide Pow, DigitsOf, Value, Repeated;
    WholeConverted(s, t, base, mul, add, carry, i, length, v);
    BelowTail(t, |t| - i, base);
    ValueBound(t[|t| - i..], base);
    CarryIsZero(Value(t[|t| - i..], base), carry, Pow(base, i), v * mul + add);
    if i > 0 && i == length { OldTop(s, base, length, v, mul, add); }
    HeldAfter(t, base, i, v * mul + add);
  }

  /** The number below the carry is the whole result, if the result is too small for a carry. */
  lemma CarryIsZero(low: int, carry: int, p: int, total: int)
    requires low >= 0 && carry >= 0 && p > 0 && low + carry * p == total && (carry > 0 ==> total < p)
    ensures carry == 0 && low == total
  {
    if carry > 0 { MulOrder(1, carry, p); }
  }

  lemma HeldAfter(t: seq<int>, base: nat, i: nat, total: int)
    requires base >= 2 && i <= |t| && Below(t, base) && t[..|t| - i] == Repeated(|t| - i, 0)
    requires Value(t[|t| - i..], base) == total >= 0 && (i > 0 ==> total >= Pow(base, i - 1))
    ensures Holds(t, base, i, total)
  {
    hide Pow, DigitsOf, Value, Repeated;
    var low := t[|t| - i..];
    BelowTail(t, |t| - i, base);
    assert t == t[..|t| - i] + low;
    if i > 0 { LeadingPositive(low, base); }
    DigitsUnique(low, base);
  }

  lemma OldTop(s: seq<int>, base: nat, length: nat, v: int, mul: nat, add: nat)
    requires Holds(s, base, length, v) && length > 0 && mul >= 1
    ensures v * mul + add >= Pow(base, length - 1)
  {
    hide Pow;
    var d := DigitsOf(v, base);
    DigitsFacts(v, base);
    assert |d| == length;
    LeadingPositive(d, base);
    MulOrder(1, mul, v);
  }

  // ----- encoding -----

  lemma ValueMore(s: seq<int>, k: nat, base: int)
    requires k < |s|
    ensures Value(s[..k + 1], base) == Value(s[..k], base) * base + s[k]
  {
    assert s[..k + 1][..k] == s[..k];
  }

  lemma NothingHeld(n: nat, base: nat)
    requires base >= 2
    ensures Holds(Repeated(n, 0), base, 0, 0)
  {
    assert Repeated(n, 0) == Repeated(n, 0) + DigitsOf(0, base);
  }

  /** The first k + 1 of n digits make a number that fits a buffer for all n. */
  lemma PrefixFits(s: seq<int>, k: nat, base: nat, other: nat, size: nat)
    requires base >= 2 && other >= 2 && k < |s| && Below(s, base) && Pow(base, |s|) <= Pow(other, size)
    ensures Value(s[..k], base) * base + s[k] < Pow(other, size)
  {
    hide Value, Pow;
    ValueMore(s, k, base);
    ValueBound(s[..k + 1], base);
    PowOrder(base, k + 1, |s|);
  }

  method EncodeBase58(input: seq<int>) returns (str: seq<int>)
    requires Below(input, 256)
    ensures str == Encoded(input)
  {
    hide Value, DigitsOf, Pow, Holds, Leading, Base58Char;
    var zeroes := CountLeading(input, 0);
    LeadingFacts(input, 0);
    var rest := input[zeroes..];
    ValueZeroes(zeroes, rest, 256);
    assert Repeated(zeroes, 0) == seq(zeroes, _ => 0);
    var size := |rest| * 138 / 100 + 1;
    EncodedSize(|rest|);
    var b58 := new int[size](_ => 0);
    assert b58[..] == Repeated(size, 0);
    NothingHeld(size, 58);
    NoDigits(rest, 256);
    var length: nat, k: nat := 0, 0;
    while k < |rest|
      invariant 0 <= k <= |rest| && Holds(b58[..], 58, length, Value(rest[..k], 256))
    {
      PrefixFits(rest, k, 256, 58, size);
      ValueMore(rest, k, 256);
      length := MulAdd(b58, 58, 256, rest[k], length, Value(rest[..k], 256));
      k := k + 1;
    }
    assert rest[..k] == rest;
    HeldDigits(b58[..], 58, length, Value(rest, 256));
    var it := SkipZeroes(b58, size - length);
    assert it == size - length;
    str := Repeated(zeroes, ONE);
    ghost var d := DigitsOf(Value(rest, 256), 58);
    while it < size
      invariant size - length <= it <= size
      invariant str == Repeated(zeroes, ONE) + Chars(d)[..it - (size - length)]
    {
      assert b58[it] == d[it - (size - length)];
      str := str + [Base58Char(b58[it])];
      it := it + 1;
    }
    assert Chars(d)[..length] == Chars(d);
  }

  method SkipZeroes(b: array<int>, from: nat) returns (it: nat)
    requires from <= b.Length
    ensures from <= it <= b.Length && (it < b.Length ==> b[it] != 0)
    ensures forall j | from <= j < it :: b[j] == 0
  {
    it := from;
    while it < b.Length && b[it] == 0
      invariant from <= it <= b.Length && forall j | from <= j < it :: b[j] == 0
    {
      it := it + 1;
    }
  }

  lemma NoDigits(s: seq<int>, base: int)
    ensures Value(s[..0], base) == 0
  {
  }

  lemma HeldDigits(s: seq<int>, base: nat, length: nat, v: int)
    requires Holds(s, base, length, v)
    ensures length <= |s| && v >= 0 && base >= 2 && |DigitsOf(v, base)| == length &&
            s[|s| - length..] == DigitsOf(v, base)
    ensures length > 0 ==> s[|s| - length] != 0
  {
    DigitsFacts(v, base);
  }

  method CountLeading(s: seq<int>, x: int) returns (n: nat)
    ensures n == Leading(s, x)
  {
    n := 0;
    assert s[0..] == s;
    while n < |s| && s[n] == x
      invariant 0 <= n <= |s| && Leading(s, x) == n + Leading(s[n..], x)
    {
      assert s[n..][1..] == s[n + 1..];
      n := n + 1;
    }
  }

  // ----- decoding -----

  /** The ones at the front, and what follows them. */
  ghost function Ones(str: seq<int>): nat { Leading(SkipSpaces(str), ONE) }

  ghost function Body(str: seq<int>): seq<int> { SkipSpaces(str)[Ones(str)..] }

  lemma TooManyOnes(str: seq<int>, max: int)
    requires Ones(str) > Max(0, max)
    ensures Decoded(str, max) == None
  {
    hide Leading, SkipSpaces, Word, DigitsOf, Value;
  }

  lemma BadCharacter(str: seq<int>, max: int, k: nat)
    requires k < |Word(Body(str))| && MapBase58(Body(str)[k]) == -1
    ensures Decoded(str, max) == None
  {
    hide Leading, SkipSpaces, Word, DigitsOf, Value, MapBase58;
    assert Word(Body(str))[k] == Body(str)[k];
  }

  /** More digits never make a shorter number. */
  lemma {:induction false} LongerDigits(n: int, m: int, base: nat)
    requires 0 <= n <= m && base >= 2
    ensures |DigitsOf(n, base)| <= |DigitsOf(m, base)|
    decreases m
  {
    if n > 0 {
      Smaller(n, base);
      Smaller(m, base);
      DivOrder(n, m, base);
      LongerDigits(n / base, m / base, base);
    }
  }

  lemma DivOrder(n: int, m: int, d: int)
    requires 0 <= n <= m && d > 0
    ensures n / d <= m / d
  {
    assert n == (n / d) * d + n % d;
    assert m == (m / d) * d + m % d;
    if n / d > m / d {
      MulOrder(m / d + 1, n / d, d);
      assert false;
    }
  }

  lemma {:induction false} ValueGrows(s: seq<int>, k: nat, base: nat)
    requires base >= 1 && k <= |s| && Below(s, base)
    ensures 0 <= Value(s[..k], base) <= Value(s, base)
    decreases |s|
  {
    ValueBound(s[..k], base);
    if k < |s| {
      var n := |s| - 1;
      assert s[..n][..k] == s[..k];
      ValueGrows(s[..n], k, base);
      MulOrder(1, base, Value(s[..n], base));
    } else {
      assert s[..k] == s;
    }
  }

  /** What follows the ones does not begin with a zero digit, so as soon as there is a digit there is a byte. */
  lemma BodyPositive(str: seq<int>, k: nat)
    requires 0 < k <= |Body(str)| && AllDigits(Body(str)[..k])
    ensures Value(DigitValues(Body(str)[..k]), 58) > 0
  {
    hide Leading, SkipSpaces, Value, MapBase58, Pow;
    LeadingFacts(SkipSpaces(str), ONE);
    var w := Body(str)[..k];
    DigitRange(w);
    DigitsFactsOf(w);
    LeadingPositive(DigitValues(w), 58);
  }

  lemma TooLong(str: seq<int>, max: int, k: nat)
    requires 0 < k <= |Word(Body(str))| && AllDigits(Body(str)[..k])
    requires var v := Value(DigitValues(Body(str)[..k]), 58);
             v >= 0 && Ones(str) + |DigitsOf(v, 256)| > max
    ensures Decoded(str, max) == None
  {
    hide Leading, SkipSpaces, Word, DigitsOf, Value, MapBase58;
    var w := Word(Body(str));
    BodyPositive(str, k);
    DigitsFacts(Value(DigitValues(Body(str)[..k]), 58), 256);
    if AllDigits(w) {
      DigitRange(w);
      ValueGrows(DigitValues(w), k, 58);
      assert DigitValues(w)[..k] == DigitValues(Body(str)[..k]);
      LongerDigits(Value(DigitValues(w)[..k], 58), Value(DigitValues(w), 58), 256);
    }
  }

  lemma TrailingCharacters(str: seq<int>, max: int)
    requires SkipSpaces(Body(str)[|Word(Body(str))|..]) != []
    ensures Decoded(str, max) == None
  {
    hide Leading, Word, DigitsOf, Value, MapBase58;
    assert Body(str)[|Word(Body(str))|..] == SkipSpaces(str)[Ones(str) + |Word(Body(str))|..];
  }

  lemma Accepted(str: seq<int>, max: int)
    requires 0 !in str && AllDigits(Word(Body(str))) && SkipSpaces(Body(str)[|Word(Body(str))|..]) == []
    ensures var v := Value(DigitValues(Word(Body(str))), 58);
            v >= 0 && (Ones(str) + |DigitsOf(v, 256)| <= Max(0, max) ==>
                         Decoded(str, max) == Some(Repeated(Ones(str), 0) + DigitsOf(v, 256)))
  {
    hide Leading, Word, DigitsOf, Value, MapBase58;
    var w := Word(Body(str));
    DigitRange(w);
    ValueBound(DigitValues(w), 58);
    assert Body(str)[|w|..] == SkipSpaces(str)[Ones(str) + |w|..];
  }

  /** With no room for a byte, whether the limit is zero or below, exactly the blank strings are accepted. */
  lemma NoRoom(str: seq<int>, max: int)
    requires max <= 0
    ensures Decoded(str, max) == if SkipSpaces(str) == [] && 0 !in str then Some([]) else None
  {
    hide DigitsOf, Value, MapBase58, IsSpace;
    if SkipSpaces(str) == [] {
      if 0 !in str { BlankDecodes(str, max); }
    } else if Ones(str) > 0 {
      TooManyOnes(str, max);
    } else {
      WordBegins(str);
      if MapBase58(Body(str)[0]) == -1 {
        BadCharacter(str, max, 0);
      } else {
        BodyPositive(str, 1);
        DigitsFacts(Value(DigitValues(Body(str)[..1]), 58), 256);
        TooLong(str, max, 1);
      }
    }
  }

  lemma BlankDecodes(str: seq<int>, max: int)
    requires SkipSpaces(str) == [] && 0 !in str
    ensures Decoded(str, max) == Some([])
  {
    hide MapBase58, IsSpace;
    Accepted(str, max);
    assert Value(DigitValues(Word(Body(str))), 58) == 0 && DigitsOf(0, 256) == [];
    assert Repeated(Ones(str), 0) + [] == [];
  }

  lemma WordBegins(str: seq<int>)
    requires SkipSpaces(str) != [] && Ones(str) == 0
    ensures |Word(Body(str))| > 0
  {
    hide IsSpace;
    SkipStops(str);
  }

  lemma {:induction false} SkipStops(s: seq<int>)
    ensures SkipSpaces(s) != [] ==> !IsSpace(SkipSpaces(s)[0])
  {
    hide IsSpace;
    if s != [] && IsSpace(s[0]) { SkipStops(s[1..]); }
  }

  /** Skips spaces from place p on. */
  method SkipFrom(str: seq<int>, p: nat) returns (q: nat)
    requires p <= |str|
    ensures p <= q <= |str| && str[q..] == SkipSpaces(str[p..])
  {
    q := p;
    while q < |str| && IsSpace(str[q])
      invariant p <= q <= |str| && SkipSpaces(str[p..]) == SkipSpaces(str[q..])
    {
      assert str[q..][1..] == str[q + 1..];
      q := q + 1;
    }
  }

  /** Counts the ones from place p on, giving up above max; the limit is looked at after each one. */
  method CountOnes(str: seq<int>, p: nat, max: int) returns (ok: bool, zeroes: nat)
    requires p <= |str|
    ensures ok <==> Leading(str[p..], ONE) <= Max(0, max)
    ensures ok ==> zeroes == Leading(str[p..], ONE)
  {
    ok, zeroes := true, 0;
    while p + zeroes < |str| && str[p + zeroes] == ONE
      invariant p + zeroes <= |str| && Leading(str[p..], ONE) == zeroes + Leading(str[p + zeroes..], ONE)
      invariant zeroes <= Max(0, max)
    {
      assert str[p + zeroes..][1..] == str[p + zeroes + 1..];
      zeroes := zeroes + 1;
      if zeroes > max { return false, zeroes; }
    }
  }

  lemma WordGoesOn(s: seq<int>, k: nat)
    requires k < |s| && !IsSpace(s[k]) && |Word(s)| >= k
    ensures |Word(s)| >= k + 1
  {
    hide Word, IsSpace;
    WordFacts(s);
  }

  lemma WordEnds(s: seq<int>, k: nat)
    requires k <= |s| && |Word(s)| >= k && (k == |s| || IsSpace(s[k]))
    ensures |Word(s)| == k && Word(s) == s[..k]
  {
    hide Word, IsSpace;
    WordFacts(s);
  }

  lemma DigitsMore(w: seq<int>, k: nat)
    requires k < |w| && AllDigits(w[..k]) && MapBase58(w[k]) != -1
    ensures AllDigits(w[..k + 1])
    ensures Value(DigitValues(w[..k + 1]), 58) == Value(DigitValues(w[..k]), 58) * 58 + MapBase58(w[k])
  {
    hide Value, MapBase58;
    ValueMore(DigitValues(w[..k + 1]), k, 58);
    assert DigitValues(w[..k + 1])[..k] == DigitValues(w[..k]);
    assert DigitValues(w[..k + 1])[..k + 1] == DigitValues(w[..k + 1]);
  }

  lemma DigitsFit(w: seq<int>, k: nat, n: nat, size: nat)
    requires k <= n && k <= |w| && AllDigits(w[..k]) && Pow(58, n) <= Pow(256, size)
    ensures 0 <= Value(DigitValues(w[..k]), 58) < Pow(256, size)
  {
    hide Value, Pow, MapBase58;
    DigitRange(w[..k]);
    ValuesLength(w[..k]);
    ValueBound(DigitValues(w[..k]), 58);
    PowOrder(58, k, n);
  }

  method DecodeBase58(str: seq<int>, max: int) returns (ok: bool, vch: seq<int>)
    ensures ok <==> Decoded(str, max).Some?
    ensures ok ==> vch == Decoded(str, max).value
  {
    hide Value, DigitsOf, Pow, Holds, Leading, Word, SkipSpaces, MapBase58, IsSpace, AllDigits, DigitValues, Decoded;
    vch := [];
    if 0 in str {
      HasNul(str, max);
      return false, vch;
    }
    assert str[0..] == str;
    var p := SkipFrom(str, 0);
    var few, zeroes := CountOnes(str, p, max);
    if !few {
      TooManyOnes(str, max);
      return false, vch;
    }
    p := p + zeroes;
    ghost var body := Body(str);
    assert str[p..] == body;
    var n := |str| - p;
    var size := n * 733 / 1000 + 1;
    DecodedSize(n);
    var b256 := new int[size](_ => 0);
    assert b256[..] == Repeated(size, 0);
    NothingHeld(size, 256);
    NoDigitValues(body);
    var length: nat, k: nat := 0, 0;
    while p + k < |str| && !IsSpace(str[p + k])
      invariant k <= n && |Word(body)| >= k && AllDigits(body[..k])
      invariant Holds(b256[..], 256, length, Value(DigitValues(body[..k]), 58))
      invariant length + zeroes <= Max(0, max)
    {
      assert str[p + k] == body[k];
      WordGoesOn(body, k);
      var carry := MapBase58(str[p + k]);
      if carry == -1 {
        BadCharacter(str, max, k);
        return false, vch;
      }
      MapChars(body[k]);
      DigitsMore(body, k);
      DigitsFit(body, k + 1, n, size);
      length := MulAdd(b256, 256, 58, carry, length, Value(DigitValues(body[..k]), 58));
      k := k + 1;
      HeldDigits(b256[..], 256, length, Value(DigitValues(body[..k]), 58));
      if length + zeroes > max {
        TooLong(str, max, k);
        return false, vch;
      }
    }
    if k < n { assert str[p + k] == body[k]; }
    WordEnds(body, k);
    assert str[p + k..] == body[k..];
    var q := SkipFrom(str, p + k);
    if q < |str| {
      TrailingCharacters(str, max);
      return false, vch;
    }
    Accepted(str, max);
    HeldDigits(b256[..], 256, length, Value(DigitValues(body[..k]), 58));
    ok := true;
    vch := Repeated(zeroes, 0) + b256[size - length..];
  }

  lemma HasNul(str: seq<int>, max: int)
    requires 0 in str
    ensures Decoded(str, max) == None
  {
  }

  lemma NoDigitValues(s: seq<int>)
    ensures AllDigits(s[..0]) && Value(DigitValues(s[..0]), 58) == 0
  {
  }

  // ----- with a checksum -----

  const INT_MAX := 0x7fff_ffff

  /** A hash of byte strings; its first four bytes are the checksum. */
  type Hash = seq<int> -> seq<int>

  ghost predicate IsHash(hash: Hash) {
    forall x: seq<int> :: |hash(x)| == 32 && Below(hash(x), 256)
  }

  ghost function CheckEncoded(input: seq<int>, hash: Hash): seq<int>
    requires Below(input, 256) && IsHash(hash)
  {
    Encoded(input + hash(input)[..4])
  }

  function CheckLimit(max: int): int { if max > INT_MAX - 4 then INT_MAX else max + 4 }

  ghost function CheckDecoded(str: seq<int>, max: int, hash: Hash): Option<seq<int>>
    requires IsHash(hash)
  {
    var r := Decoded(str, CheckLimit(max));
    if r.None? || |r.value| < 4 then None
    else
      var payload := r.value[..|r.value| - 4];
      if hash(payload)[..4] != r.value[|r.value| - 4..] then None else Some(payload)
  }

  method EncodeBase58Check(input: seq<int>, hash: Hash) returns (str: seq<int>)
    requires Below(input, 256) && IsHash(hash)
    ensures str == CheckEncoded(input, hash)
  {
    hide Encoded;
    var vch := input;
    var h := hash(vch);
    vch := vch + h[..4];
    str := EncodeBase58(vch);
  }

  method DecodeBase58Check(str: seq<int>, max: int, hash: Hash) returns (ok: bool, vch: seq<int>)
    requires IsHash(hash)
    ensures ok <==> CheckDecoded(str, max, hash).Some?
    ensures vch == if ok then CheckDecoded(str, max, hash).value else []
  {
    hide Decoded;
    ok, vch := DecodeBase58(str, if max > INT_MAX - 4 then INT_MAX else max + 4);
    if !ok || |vch| < 4 { return false, []; }
    var h := hash(vch[..|vch| - 4]);
    if h[..4] != vch[|vch| - 4..] { return false, []; }
    vch := vch[..|vch| - 4];
  }

  /** A checked string gives its bytes back exactly when the limit, and that of a 32-bit length, allows. */
  lemma CheckDecodesBack(input: seq<int>, max: int, hash: Hash)
    requires Below(input, 256) && IsHash(hash)
    ensures CheckDecoded(CheckEncoded(input, hash), max, hash) ==
            if |input| <= max && |input| <= 0x7fff_fffb then Some(input) else None
  {
    hide Encoded, Decoded;
    var all := input + hash(input)[..4];
    DecodesBack(all, CheckLimit(max));
    assert all[..|all| - 4] == input && all[|all| - 4..] == hash(input)[..4];
  }

  /** A checked string that decodes is, without the spaces around it, the encoding of its bytes and their checksum. */
  lemma CheckEncodesBack(str: seq<int>, max: int, hash: Hash)
    requires IsHash(hash) && CheckDecoded(str, max, hash).Some?
    ensures var d := CheckDecoded(str, max, hash).value; Below(d, 256) && CheckEncoded(d, hash) == Trimmed(str)
  {
    hide Encoded, Decoded, Trimmed;
    EncodesBack(str, CheckLimit(max));
    var v := Decoded(str, CheckLimit(max)).value;
    assert v == v[..|v| - 4] + v[|v| - 4..];
  }
}
