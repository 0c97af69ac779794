/** Numbers written with digits of any base, most significant first, and the sizes such writings need. */
module Digits {
  import opened Numbers

  predicate Below(s: seq<int>, base: int) { forall i | 0 <= i < |s| :: 0 <= s[i] < base }

  /** The number that a list of digits stands for. */
  function Value(s: seq<int>, base: int): int
    decreases |s|
  {
    if s == [] then 0 else Value(s[..|s| - 1], base) * base + s[|s| - 1]
  }

  /** The digits of a number, without leading zeroes. */
  function DigitsOf(n: int, base: int): seq<int>
    requires n >= 0 && base >= 2
    decreases n
  {
    if n == 0 then [] else Smaller(n, base); DigitsOf(n / base, base) + [n % base]
  }

  lemma Smaller(n: int, base: int)
    requires n > 0 && base >= 2
    ensures 0 <= n / base < n
  {
    QuotientBounds(n, base);
    assert n == (n / base) * base + n % base;
    MulOrder(2, base, n / base);
  }

  lemma {:induction false} ValueBound(s: seq<int>, base: nat)
    requires base >= 1 && Below(s, base)
    ensures 0 <= Value(s, base) < Pow(base, |s|)
    decreases |s|
  {
    if s != [] {
      var n := |s| - 1;
      ValueBound(s[..n], base);
      MulOrder(Value(s[..n], base) + 1, Pow(base, n), base);
      assert (Value(s[..n], base) + 1) * base == Value(s[..n], base) * base + base;
      MulOrder(0, Value(s[..n], base), base);
    }
  }

  /** A leading digit counts for its power. */
  lemma {:induction false} ValueFront(d: int, s: seq<int>, base: nat)
    requires base >= 1
    ensures Value([d] + s, base) == d * Pow(base, |s|) + Value(s, base)
    decreases |s|
  {
    if s == [] {
      assert ([d] + s)[..0] == [];
    } else {
      var n := |s| - 1;
      assert ([d] + s)[..n + 1] == [d] + s[..n];
      ValueFront(d, s[..n], base);
      var p, v := Pow(base, n), Value(s[..n], base);
      assert (d * p + v) * base == d * (base * p) + v * base;
    }
  }

  lemma {:induction false} ValueZeroes(z: nat, s: seq<int>, base: nat)
    requires base >= 1
    ensures Value(seq(z, _ => 0) + s, base) == Value(s, base)
    decreases z
  {
    var zs := seq(z, _ => 0);
    if z == 0 {
      assert zs + s == s;
    } else {
      var fewer := seq(z - 1, _ => 0);
      assert zs + s == [0] + (fewer + s);
      ValueFront(0, fewer + s, base);
      ValueZeroes(z - 1, s, base);
    }
  }

  /** Digits without a leading zero are the digits of their number. */
  lemma {:induction false} DigitsUnique(s: seq<int>, base: nat)
    requires base >= 2 && Below(s, base) && (s != [] ==> s[0] != 0)
    ensures Value(s, base) >= 0 && DigitsOf(Value(s, base), base) == s
    decreases |s|
  {
    ValueBound(s, base);
    if s != [] {
      var n := |s| - 1;
      var v := Value(s[..n], base);
      DigitsUnique(s[..n], base);
      DivUnique(Value(s, base), base, v, s[n]);
      if n == 0 {
        assert s[..0] == [];
      } else {
        LeadingPositive(s[..n], base);
        MulOrder(1, v, base);
      }
      assert s == s[..n] + [s[n]];
    }
  }

  /** A leading digit that is not zero makes the number at least its power. */
  lemma LeadingPositive(s: seq<int>, base: nat)
    requires base >= 1 && s != [] && Below(s, base)
    ensures s[0] != 0 <==> Value(s, base) >= Pow(base, |s| - 1)
  {
    assert s == [s[0]] + s[1..];
    ValueFront(s[0], s[1..], base);
    ValueBound(s[1..], base);
    if s[0] != 0 { MulOrder(1, s[0], Pow(base, |s| - 1)); }
  }

  lemma {:induction false} DigitsFacts(n: int, base: nat)
    requires n >= 0 && base >= 2
    ensures Below(DigitsOf(n, base), base) && Value(DigitsOf(n, base), base) == n
    ensures n > 0 ==> DigitsOf(n, base) != []
    ensures DigitsOf(n, base) != [] ==> DigitsOf(n, base)[0] != 0
    decreases n
  {
    hide Value, DigitsOf;
    NoValue(base);
    if n > 0 {
      var q, r := Split(n, base);
      DigitsFacts(q, base);
      ValueAppend(DigitsOf(q, base), r, base);
    }
  }

  /** The last digit of a number and what comes before it. */
  lemma Split(n: int, base: nat) returns (q: int, r: int)
    requires n > 0 && base >= 2
    ensures 0 <= q < n && 0 <= r < base && n == q * base + r
    ensures DigitsOf(n, base) == DigitsOf(q, base) + [r]
  {
    Smaller(n, base);
    q, r := n / base, n % base;
    assert n == q * base + r;
  }

  lemma NoValue(base: int)
    requires base >= 2
    ensures Value([], base) == 0 && DigitsOf(0, base) == []
  {
  }

  lemma ValueAppend(s: seq<int>, d: int, base: int)
    ensures Value(s + [d], base) == Value(s, base) * base + d
  {
    assert (s + [d])[..|s|] == s;
  }

  // ----- sizes -----

  /** 138/100 digits of base 58, and one more, are enough for a byte each. */
  lemma {:induction false} EncodedSize(k: nat)
    ensures Pow(256, k) <= Pow(58, k * 138 / 100 + 1)
    decreases k
  {
    hide Pow;
    if k >= 8 {
      EncodedSize(k - 8);
      EightBytes();
      Longer(256, 58, k - 8, (k - 8) * 138 / 100 + 1, 8, 11, k * 138 / 100 + 1);
    } else {
      FewBytes(k);
    }
  }

  /** Two bounds multiply. */
  lemma Longer(b: nat, c: nat, k: nat, m: nat, d: nat, e: nat, n: nat)
    requires b >= 1 && c >= 1 && Pow(b, k) <= Pow(c, m) && Pow(b, d) <= Pow(c, e) && m + e <= n
    ensures Pow(b, k + d) <= Pow(c, n)
  {
    hide Pow;
    PowAdd(b, k, d);
    PowAdd(c, m, e);
    MulBoth(Pow(b, k), Pow(c, m), Pow(b, d), Pow(c, e));
    PowOrder(c, m + e, n);
  }

  lemma EightBytes()
    ensures Pow(256, 8) <= Pow(58, 11)
  {
    assert Pow(256, 2) == 65536;
    PowAdd(256, 2, 2);
    PowAdd(256, 4, 4);
    Powers58();
    PowAdd(58, 8, 3);
  }

  lemma Powers58()
    ensures Pow(58, 1) == 58 && Pow(58, 2) == 3364 && Pow(58, 3) == 195112 && Pow(58, 4) == 11316496
    ensures Pow(58, 5) == 656356768 && Pow(58, 6) == 38068692544 && Pow(58, 7) == 2207984167552
    ensures Pow(58, 8) == 128063081718016
  {
    assert Pow(58, 1) == 58;
    assert Pow(58, 2) == 3364;
    assert Pow(58, 3) == 195112;
    assert Pow(58, 4) == 11316496;
    PowAdd(58, 4, 1);
    PowAdd(58, 4, 2);
    PowAdd(58, 4, 3);
    PowAdd(58, 4, 4);
  }

  lemma Powers256()
    ensures Pow(256, 1) == 0x100 && Pow(256, 2) == 0x1_0000 && Pow(256, 3) == 0x100_0000 && Pow(256, 4) == 0x1_0000_0000
    ensures Pow(256, 5) == 0x100_0000_0000 && Pow(256, 6) == 0x1_0000_0000_0000 && Pow(256, 7) == 0x100_0000_0000_0000
    ensures Pow(256, 8) == 0x1_0000_0000_0000_0000
  {
    assert Pow(256, 1) == 0x100;
    assert Pow(256, 2) == 0x1_0000;
    PowAdd(256, 2, 1);
    PowAdd(256, 2, 2);
    PowAdd(256, 4, 1);
    PowAdd(256, 4, 2);
    PowAdd(256, 4, 3);
    PowAdd(256, 4, 4);
  }

  lemma FewBytes(k: nat)
    requires k < 8
    ensures Pow(256, k) <= Pow(58, k * 138 / 100 + 1)
  {
    hide Pow;
    Powers58();
    Powers256();
    PowAdd(58, 8, 1);
    PowAdd(58, 8, 2);
    NoPower(256);
    match k
    case 0 => case 1 => case 2 => case 3 => case 4 => case 5 => case 6 => case 7 =>
  }

  lemma NoPower(b: nat)
    requires b >= 1
    ensures Pow(b, 0) == 1
  {
  }

  /** 733/1000 bytes, and one more, are enough for a digit of base 58 each. */
  lemma {:induction false} DecodedSize(k: nat)
    ensures Pow(58, k) <= Pow(256, k * 733 / 1000 + 1)
    decreases k
  {
    hide Pow;
    if k >= 71 {
      DecodedSize(k - 71);
      ManyDigits();
      Longer(58, 256, k - 71, (k - 71) * 733 / 1000 + 1, 71, 52, k * 733 / 1000 + 1);
    } else if k >= 16 {
      DecodedSize(k - 15);
      FifteenDigits();
      FifteenMore(k);
      Longer(58, 256, k - 15, (k - 15) * 733 / 1000 + 1, 15, 11, k * 733 / 1000 + 1);
    } else if k >= 8 {
      MoreDigits(k);
    } else {
      FewDigits(k);
    }
  }

  /** 733 * 15 is five short of 11000, which no count from 16 to 70 is close enough to notice. */
  lemma FifteenMore(k: nat)
    requires 16 <= k < 71
    ensures (k - 15) * 733 / 1000 + 11 <= k * 733 / 1000
  {
    var q, r := k * 733 / 1000, k * 733 % 1000;
    assert k * 733 == q * 1000 + r;
    if r >= 995 {
      SmallRemainders(k, q, r);
      assert false;
    }
    assert (k - 15) * 733 == (q - 11) * 1000 + (r + 5);
  }

  lemma SmallRemainders(k: nat, q: int, r: int)
    requires 16 <= k < 71 && k * 733 == q * 1000 + r && 0 <= r < 1000
    ensures r < 995
  {
  }

  lemma FewDigits(k: nat)
    requires k < 8
    ensures Pow(58, k) <= Pow(256, k * 733 / 1000 + 1)
  {
    hide Pow;
    Powers58();
    Powers256();
    NoPower(58);
    match k
    case 0 => case 1 => case 2 => case 3 => case 4 => case 5 => case 6 => case 7 =>
  }

  lemma MoreDigits(k: nat)
    requires 8 <= k < 16
    ensures Pow(58, k) <= Pow(256, k * 733 / 1000 + 1)
  {
    hide Pow;
    Powers58();
    Powers256();
    PowAdd(58, 8, k - 8);
    NoPower(58);
    if k >= 10 { PowAdd(256, 8, k * 733 / 1000 + 1 - 8); }
    match k
    case 8 => case 9 => case 10 => case 11 => case 12 => case 13 => case 14 => case 15 =>
  }

  lemma FifteenDigits()
    ensures Pow(58, 15) <= Pow(256, 11)
  {
    hide Pow;
    MoreDigits(15);
  }

  lemma ManyDigits()
    ensures Pow(58, 71) <= Pow(256, 52)
  {
    hide Pow;
    Powers58();
    PowAdd(58, 8, 8);
    PowAdd(58, 16, 16);
    PowAdd(58, 32, 32);
    PowAdd(58, 64, 7);
    assert Pow(58, 16) == 16400152899115243850138976256;
    assert Pow(58, 32) == 268965015114358137726910587140455987105619365599731777536;
    Powers256();
    PowAdd(256, 8, 8);
    PowAdd(256, 16, 16);
    PowAdd(256, 32, 16);
    PowAdd(256, 48, 4);
  }
}
