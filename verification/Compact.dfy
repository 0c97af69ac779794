/** The compact encoding of difficulty targets, and the work that a target stands for. */
module Compact {
  import opened ArithUint
  import opened Limbs
  import opened Numbers
  import opened Prelude

  const SIGN := 0x80_0000
  const WIDTH := 8

  /** The number of 256-bit values. */
  function Modulus(): int { Pow2(256) }

  /** The absolute value that a mantissa and an exponent denote, before any reduction. */
  function Scaled(word: nat, size: nat): (r: int)
    ensures r >= 0
  {
    if size <= 3 then
      QuotientBounds(word, Pow2(8 * (3 - size)));
      word / Pow2(8 * (3 - size))
    else
      MulNonNegative(word, Pow2(8 * (size - 3)));
      word * Pow2(8 * (size - 3))
  }

  lemma MulNonNegative(a: int, b: int)
    requires a >= 0 && b >= 0
    ensures a * b >= 0
  {
  }

  function Magnitude(nCompact: nat): (r: int)
    ensures r >= 0
  {
    Scaled(nCompact % SIGN, nCompact / 0x100_0000)
  }

  /** The formula of the format: the mantissa times 256 to the power of the exponent less three, rounded down. */
  lemma MagnitudeIs(nCompact: nat)
    ensures Magnitude(nCompact) ==
            ((nCompact % 0x80_0000) * Pow(256, nCompact / 0x100_0000)) / 0x100_0000
  {
    hide Pow2, Pow;
    var word, size := nCompact % SIGN, nCompact / 0x100_0000;
    BytePower(size);
    Powers();
    var p := Pow2(8 * size);
    if size <= 3 {
      var d := Pow2(8 * (3 - size));
      Pow2Add(8 * size, 8 * (3 - size));
      assert p * d == 0x100_0000;
      ScaledDown(word, p, d);
    } else {
      var e := Pow2(8 * (size - 3));
      Pow2Add(8 * (size - 3), 24);
      MulGroups(word, e, 0x100_0000);
      DivUnique(word * p, 0x100_0000, word * e, 0);
    }
  }

  lemma {:induction false} BytePower(n: nat)
    ensures Pow(256, n) == Pow2(8 * n)
  {
    hide Pow2, Pow;
    PowSteps(256, 0);
    if n == 0 {
      FirstPower();
    } else {
      BytePower(n - 1);
      PowSteps(256, n - 1);
      Powers();
      Pow2Add(8, 8 * (n - 1));
    }
  }

  /** A common factor of number and divisor does not change a quotient. */
  lemma ScaledDown(a: int, p: int, d: int)
    requires a >= 0 && p > 0 && d > 0
    ensures (a * p) / (p * d) == a / d
  {
    var q, r := a / d, a % d;
    assert a == q * d + r;
    assert a * p == q * (p * d) + r * p;
    MulOrder(0, r, p);
    OneMore(r, d, p);
    assert d * p == p * d;
    MulOrder(1, p, d);
    DivUnique(a * p, p * d, q, r * p);
  }

  // ----- decoding -----

  method SetCompact(a: BaseUint, nCompact: Limb) returns (negative: bool, overflow: bool)
    requires a.pn.Length == WIDTH
    modifies a.pn
    ensures a.V() == Magnitude(nCompact) % Modulus()
    ensures negative <==> Magnitude(nCompact) != 0 && (nCompact / SIGN) % 2 == 1
    ensures overflow <==> Magnitude(nCompact) >= Modulus()
  {
    hide Pow2, Value, Weight;
    var nSize: int := nCompact / 0x100_0000;
    var nWord: int := nCompact % SIGN;
    WidthIs();
    if nSize <= 3 {
      QuotientBounds(nWord, Pow2(8 * (3 - nSize)));
      nWord := nWord / Pow2(8 * (3 - nSize));
      a.Assign(nWord);
      SmallMagnitude(nWord);
    } else {
      OverflowIs(nWord, nSize);
      a.Assign(nWord);
      a.ShiftLeft(8 * (nSize - 3));
    }
    negative := nWord != 0 && (nCompact / SIGN) % 2 == 1;
    overflow := nWord != 0 && (nSize > 34 || (nWord > 0xff && nSize > 33) || (nWord > 0xffff && nSize > 32));
  }

  lemma WidthIs()
    ensures Weight(WIDTH) == Modulus()
  {
  }

  lemma SmallMagnitude(v: int)
    requires 0 <= v < SIGN
    ensures v % Modulus() == v < Modulus()
  {
    hide Pow2;
    Pow2Order(32, 256);
    Word();
    ModSmall(v, Modulus());
  }

  lemma Powers()
    ensures Pow2(8) == 0x100 && Pow2(16) == 0x1_0000 && Pow2(15) == 0x8000 && Pow2(23) == SIGN && Pow2(24) == 0x100_0000
  {
    assert Pow2(8) == 0x100 && Pow2(7) == 0x80;
    Pow2Add(8, 8);
    Pow2Add(8, 7);
    Pow2Add(8, 15);
    Pow2Add(8, 16);
  }

  /** Comparing a product with 2^256 is comparing the factor with what is left of the exponent. */
  lemma FitsIff(word: nat, e: nat)
    requires e <= 256
    ensures word * Pow2(e) >= Modulus() <==> word >= Pow2(256 - e)
  {
    hide Pow2;
    Pow2Add(256 - e, e);
    if word >= Pow2(256 - e) {
      MulOrder(Pow2(256 - e), word, Pow2(e));
    } else {
      OneMore(word, Pow2(256 - e), Pow2(e));
    }
  }

  lemma OverflowIs(word: nat, size: nat)
    requires 3 < size && word < SIGN
    ensures word * Pow2(8 * (size - 3)) >= Modulus() <==>
            word != 0 && (size > 34 || (word > 0xff && size > 33) || (word > 0xffff && size > 32))
    ensures word * Pow2(8 * (size - 3)) == 0 <==> word == 0
  {
    hide Pow2;
    var e := 8 * (size - 3);
    Powers();
    MulOrder(Min(word, 1), word, Pow2(e));
    assert 0 * Pow2(e) == 0 && 1 * Pow2(e) == Pow2(e);
    if size > 34 {
      Pow2Order(256, e);
    } else {
      FitsIff(word, e);
      if size <= 32 { Pow2Order(24, 256 - e); }
    }
  }

  // ----- encoding -----

  function BitLength(x: nat): nat { if x == 0 then 0 else 1 + BitLength(x / 2) }

  lemma {:induction false} BitLengthIs(x: nat, n: nat)
    requires n > 0 && Pow2(n - 1) <= x < Pow2(n)
    ensures BitLength(x) == n
    decreases n
  {
    if n > 1 { BitLengthIs(x / 2, n - 1); }
  }

  lemma {:induction false} BitLengthBounds(x: nat)
    requires x > 0
    ensures BitLength(x) > 0 && Pow2(BitLength(x) - 1) <= x < Pow2(BitLength(x))
    decreases x
  {
    if x > 1 { BitLengthBounds(x / 2); }
  }

  function ByteLength(x: nat): nat { (BitLength(x) + 7) / 8 }

  /** The three leading bytes of a number of n bytes. */
  function Leading(x: nat, n: nat): (r: int)
    ensures r >= 0
  {
    if n <= 3 then
      MulNonNegative(x, Pow2(8 * (3 - n)));
      x * Pow2(8 * (3 - n))
    else
      QuotientBounds(x, Pow2(8 * (n - 3)));
      x / Pow2(8 * (n - 3))
  }

  /** The mantissa and the exponent of a number; the mantissa gives up a byte if it would run into the sign bit. */
  function Encoded(x: nat): (r: (int, int))
    ensures r.0 >= 0 && r.1 >= 0
  {
    var n := ByteLength(x);
    var lead := Leading(x, n);
    if lead % 0x100_0000 >= SIGN then (lead / 0x100, n + 1) else (lead, n)
  }

  lemma ByteLengthBounds(x: nat)
    requires x > 0
    ensures ByteLength(x) > 0 && Pow2(8 * (ByteLength(x) - 1)) <= x < Pow2(8 * ByteLength(x))
  {
    hide Pow2;
    BitLengthBounds(x);
    var b, n := BitLength(x), ByteLength(x);
    Pow2Order(8 * (n - 1), b - 1);
    Pow2Order(b, 8 * n);
  }

  lemma ByteLengthIs(x: nat, n: nat)
    requires n > 0 && Pow2(8 * (n - 1)) <= x < Pow2(8 * n)
    ensures ByteLength(x) == n
  {
    hide Pow2;
    BitLengthBounds(x);
    var b := BitLength(x);
    if b <= 8 * (n - 1) { Pow2Order(b, 8 * (n - 1)); }
    if b - 1 >= 8 * n { Pow2Order(8 * n, b - 1); }
  }

  /** The leading bytes are three, and the first of them is not zero. */
  lemma LeadingBounds(x: nat, n: nat)
    requires n > 0 && Pow2(8 * (n - 1)) <= x < Pow2(8 * n)
    ensures 0x1_0000 <= Leading(x, n) < 0x100_0000
  {
    hide Pow2;
    Powers();
    if n <= 3 {
      var p := Pow2(8 * (3 - n));
      Pow2Add(8 * (n - 1), 8 * (3 - n));
      Pow2Add(8 * n, 8 * (3 - n));
      MulOrder(Pow2(8 * (n - 1)), x, p);
      OneMore(x, Pow2(8 * n), p);
    } else {
      var p := Pow2(8 * (n - 3));
      Pow2Add(16, 8 * (n - 3));
      Pow2Add(24, 8 * (n - 3));
      Between(x, p, 0x1_0000, 0x100_0000);
    }
  }

  lemma Between(x: int, p: int, lo: int, hi: int)
    requires p > 0 && lo * p <= x < hi * p
    ensures lo <= x / p < hi
  {
    var q := x / p;
    assert x == q * p + x % p;
    if q < lo {
      OneMore(q, lo, p);
      assert false;
    }
    if q >= hi {
      MulOrder(hi, q, p);
      assert false;
    }
  }

  /** GetCompact, as a word of mantissa, exponent and sign. */
  function CompactOf(x: nat, negative: bool): int {
    var (word, size) := Encoded(x);
    word + size * 0x100_0000 + if negative && word != 0 then SIGN else 0
  }

  /** The sign is a bit of its own, set for a negative number unless its mantissa is zero. */
  lemma CompactSign(x: nat)
    requires x < Modulus()
    ensures CompactOf(x, true) == CompactOf(x, false) + if CompactOf(x, false) % 0x80_0000 != 0 then 0x80_0000 else 0
    ensures CompactOf(0, false) == 0
  {
    hide Pow2, Encoded;
    if x > 0 { CompactRoundTrip(x); EncodedFaithful(x); }
    NothingEncoded();
  }

  lemma NothingEncoded()
    ensures Encoded(0) == (0, 0)
  {
    hide Pow2;
    assert ByteLength(0) == 0;
    assert Leading(0, 0) == 0 * Pow2(24) == 0;
  }

  method GetLow64(a: BaseUint) returns (v: int)
    requires a.pn.Length >= 2
    ensures 0 <= v < WORD64 && v == a.V() % WORD64
  {
    hide Value, Weight;
    LowLimbs(a.pn[..]);
    v := Or(a.pn[0], a.pn[1] * BASE);
    Low64(a.pn[0], a.pn[1], Value(a.pn[2..]), a.V());
  }

  lemma Low64(x: Limb, y: Limb, high: int, v: int)
    requires v == x + y * BASE + Weight(2) * high
    ensures y as int * BASE >= 0 && Or(x, y * BASE) == x as int + y * BASE == v % WORD64
  {
    hide Pow2, Or;
    Word();
    OrLow(x, y, 32);
    Pow2Add(32, 32);
    assert Weight(2) == WORD64;
    DivUnique(v, WORD64, high, x as int + y as int * BASE);
  }

  /** The leading bytes and the length in bytes. */
  method LeadingBytes(a: BaseUint) returns (word: int, nSize: nat)
    requires a.pn.Length == WIDTH
    ensures nSize == ByteLength(a.V()) <= 32 && word == Leading(a.V(), nSize) < 0x100_0000
  {
    hide Value, Weight, Pow2, Or, Leading, ByteLength;
    var bits := a.Bits();
    nSize := (bits + 7) / 8;
    ghost var x := a.V();
    WidthIs();
    ValueBound(a.pn[..]);
    SizeIs(x, bits);
    if nSize <= 3 {
      word := GetLow64(a);
      LowIsAll(x, nSize);
      word := (word * Pow2(8 * (3 - nSize))) % BASE;
    } else {
      var bn := new BaseUint.Copy(a);
      bn.ShiftRight(8 * (nSize - 3));
      word := GetLow64(bn);
      LeadIsLow(x, nSize);
      word := word % BASE;
    }
  }

  method GetCompact(a: BaseUint, fNegative: bool) returns (nCompact: Limb)
    requires a.pn.Length == WIDTH
    ensures nCompact == CompactOf(a.V(), fNegative)
  {
    hide Value, Weight, Pow2, Leading, ByteLength;
    var word, nSize := LeadingBytes(a);
    if (word / SIGN) % 2 == 1 {
      word := word / 0x100;
      nSize := nSize + 1;
    }
    assert word < SIGN && nSize < 256;
    nCompact := PackWord(word, nSize, fNegative);
  }

  /** Mantissa, exponent and sign side by side in one word. */
  method PackWord(word: int, nSize: int, fNegative: bool) returns (nCompact: Limb)
    requires 0 <= word < SIGN && 0 <= nSize < 256
    ensures nCompact == word + nSize * 0x100_0000 + if fNegative && word != 0 then SIGN else 0
  {
    hide Pow2, Or;
    Powers();
    OrLow(word, nSize, 24);
    MantissaBelow(word, nSize);
    var packed := Or(word, nSize * 0x100_0000);
    if fNegative && packed % SIGN != 0 {
      OrSign(packed);
      packed := Or(packed, SIGN);
    }
    nCompact := packed;
  }

  lemma MantissaBelow(word: int, nSize: int)
    requires 0 <= word < SIGN
    ensures (word + nSize * 0x100_0000) % SIGN == word && (word + nSize * 0x100_0000) % 0x100_0000 == word
  {
    DivUnique(word + nSize * 0x100_0000, SIGN, 2 * nSize, word);
    DivUnique(word + nSize * 0x100_0000, 0x100_0000, nSize, word);
  }

  lemma OrSign(word: nat)
    requires word % 0x100_0000 < SIGN
    ensures Or(word, SIGN) == word + SIGN
  {
    hide Or, Pow2;
    Powers();
    OrClear(word, 23);
  }

  /** Or with a bit that is clear. */
  lemma {:induction false} OrClear(a: nat, k: nat)
    requires (a / Pow2(k)) % 2 == 0
    ensures Or(a, Pow2(k)) == a + Pow2(k)
    decreases k
  {
    if k > 0 && a > 0 {
      HalfPower(k - 1);
      DivTwice(a, Pow2(k - 1));
      OrClear(a / 2, k - 1);
    }
  }

  lemma DivTwice(a: nat, p: int)
    requires p > 0
    ensures (a / 2) / p == a / (2 * p)
  {
    var h, b := a / 2, a % 2;
    var q, r := h / p, h % p;
    assert h == q * p + r;
    assert a == q * (2 * p) + (2 * r + b);
    DivUnique(a, 2 * p, q, 2 * r + b);
  }

  lemma SizeIs(x: nat, bits: nat)
    requires x < Modulus() && (x == 0 <==> bits == 0) && (bits > 0 ==> Pow2(bits - 1) <= x < Pow2(bits)) && bits <= 256
    ensures ByteLength(x) == (bits + 7) / 8 <= 32
  {
    hide Pow2;
    if bits > 0 { BitLengthIs(x, bits); }
  }

  lemma LowIsAll(x: nat, n: nat)
    requires n == ByteLength(x) <= 3
    ensures x % WORD64 == x && (x * Pow2(8 * (3 - n))) % BASE == Leading(x, n) < 0x100_0000
  {
    hide Pow2;
    if x > 0 {
      ByteLengthBounds(x);
      LeadingBounds(x, n);
      Pow2Order(8 * n, 24);
      Powers();
      ModSmall(Leading(x, n), BASE);
    } else {
      assert 0 * Pow2(8 * (3 - n)) == 0;
    }
    ModSmall(x, WORD64);
  }

  lemma LeadIsLow(x: nat, n: nat)
    requires n == ByteLength(x) > 3
    ensures (x / Pow2(8 * (n - 3))) % WORD64 == Leading(x, n) && Leading(x, n) % BASE == Leading(x, n) < 0x100_0000
  {
    hide Pow2;
    ByteLengthBounds(x);
    LeadingBounds(x, n);
    ModSmall(Leading(x, n), WORD64);
    ModSmall(Leading(x, n), BASE);
  }

  // ----- the round trip -----

  /** Cutting x to a multiple of p keeps all but less than p. */
  lemma CutBelow(x: int, p: int)
    requires p > 0 && x >= 0
    ensures 0 <= (x / p) * p <= x < (x / p) * p + p
    ensures ((x / p) * p) / p == x / p
  {
    assert x == (x / p) * p + x % p;
    QuotientBounds(x, p);
    MulOrder(0, x / p, p);
    DivUnique((x / p) * p, p, x / p, 0);
  }

  /** A number of at most three bytes whose leading byte leaves the sign bit free is kept exactly. */
  lemma ShortExact(x: nat, n: nat)
    requires x > 0 && n == ByteLength(x) <= 3 && Leading(x, n) < SIGN
    ensures Scaled(Leading(x, n), n) == x
  {
    hide Pow2, ByteLength;
    var p := Pow2(8 * (3 - n));
    DivUnique(x * p, p, x, 0);
  }

  /** The same when the mantissa gives up a byte that is zero. */
  lemma ShortShifted(x: nat, n: nat)
    requires x > 0 && n == ByteLength(x) < 3 && Leading(x, n) >= SIGN
    ensures Scaled(Leading(x, n) / 0x100, n + 1) == x
  {
    hide Pow2, ByteLength;
    var p := Pow2(8 * (2 - n));
    Powers();
    Pow2Add(8, 8 * (2 - n));
    assert x * (0x100 * p) == (x * p) * 0x100 + 0;
    DivUnique(x * (0x100 * p), 0x100, x * p, 0);
    DivUnique(x * p, p, x, 0);
  }

  /** Of a longer number the leading bytes are kept, and what is cut off is less than one part in 2^15. */
  lemma LongCut(x: nat, n: nat, k: nat, p: int, low: int)
    requires n == ByteLength(x) && x > 0 && p == Pow2(k) && k <= 8 * n && low * p <= x && low >= 0x8000
    ensures 0 <= (x / p) * p <= x && (x - (x / p) * p) * 0x8000 < x
    ensures ((x / p) * p) / p == x / p
    ensures (x / p) * p >= low * p
  {
    hide Pow2, ByteLength;
    CutBelow(x, p);
    MulOrder(0x8000, low, p);
    if x / p < low {
      OneMore(x / p, low, p);
      assert false;
    }
    MulOrder(low, x / p, p);
  }

  lemma SameLength(x: nat, y: nat, n: nat)
    requires x > 0 && n == ByteLength(x) && Pow2(8 * (n - 1)) <= y <= x
    ensures ByteLength(y) == n
  {
    hide Pow2, ByteLength;
    ByteLengthBounds(x);
    ByteLengthIs(y, n);
  }

  /** A mantissa and exponent that stand for a number close below x and encode to themselves. */
  ghost predicate Faithful(x: nat, word: nat, size: nat) {
    var y := Scaled(word, size);
    && 0x8000 <= word < SIGN && 0 < size <= 33
    && 0 < y <= x && (x - y) * 0x8000 < x
    && Encoded(y) == (word, size)
  }

  lemma KeptByte(x: nat, n: nat)
    requires x > 0 && n == ByteLength(x) && 3 < n <= 32 && Leading(x, n) < SIGN
    ensures Faithful(x, Leading(x, n), n)
  {
    hide Pow2, ByteLength;
    ByteLengthBounds(x);
    LeadingBounds(x, n);
    Powers();
    Pow2Add(16, 8 * (n - 3));
    var p := Pow2(8 * (n - 3));
    LongCut(x, n, 8 * (n - 3), p, 0x1_0000);
    SameLength(x, (x / p) * p, n);
  }

  lemma GivenUpByte(x: nat, n: nat)
    requires x > 0 && n == ByteLength(x) && 3 <= n <= 32 && Leading(x, n) >= SIGN
    ensures Faithful(x, Leading(x, n) / 0x100, n + 1)
  {
    hide Pow2, ByteLength;
    ByteLengthBounds(x);
    LeadingBounds(x, n);
    Powers();
    var p, p' := Pow2(8 * (n - 3)), Pow2(8 * (n - 2));
    Pow2Add(8, 8 * (n - 3));
    FirstPower();
    LeadingDeeper(x, n, p);
    LeadAtLeast(x, p);
    LongCut(x, n, 8 * (n - 2), p', 0x8000);
    var w := x / p';
    Pow2Add(16, 8 * (n - 3));
    MulOrder(0x1_0000, 0x80_0000, p);
    SameLength(x, w * p', n);
    EncodedAgain(w * p', n, w, p);
  }

  /** A number of n bytes of which the first two are w, with the sign bit, and the others zero. */
  lemma EncodedAgain(y: nat, n: nat, w: nat, p: int)
    requires 3 <= n == ByteLength(y) && p == Pow2(8 * (n - 3)) && y == w * (p * 0x100) && 0x8000 <= w < 0x1_0000
    ensures Encoded(y) == (w, n + 1)
  {
    hide Pow2, ByteLength, Leading;
    MulGroups(w, 0x100, p);
    DivUnique(y, p, w * 0x100, 0);
    LeadingDeeper(y, n, p);
  }

  /** The leading bytes without the last one. */
  lemma LeadingDeeper(x: nat, n: nat, p: int)
    requires 3 <= n && p == Pow2(8 * (n - 3))
    ensures Leading(x, n) == x / p && Leading(x, n) / 0x100 == x / (p * 0x100)
  {
    hide Pow2;
    FirstPower();
    assert x / 1 == x && x * 1 == x;
    var a := x / p;
    assert x == a * p + x % p;
    var q, r := a / 0x100, a % 0x100;
    assert a * p == (q * 0x100 + r) * p;
    assert (q * 0x100 + r) * p == q * (p * 0x100) + r * p;
    OneMore(r, 0x100, p);
    MulOrder(0, r, p);
    DivUnique(x, p * 0x100, q, r * p + x % p);
  }

  lemma LeadAtLeast(x: nat, p: int)
    requires p > 0 && x / p >= SIGN
    ensures SIGN * p <= x && 0x8000 * (p * 0x100) <= x
  {
    assert x == (x / p) * p + x % p;
    MulOrder(SIGN, x / p, p);
  }

  lemma ShortFaithful(x: nat, n: nat)
    requires x > 0 && n == ByteLength(x) <= 3 && (n == 3 ==> Leading(x, n) < SIGN)
    ensures Faithful(x, Encoded(x).0, Encoded(x).1)
  {
    hide Pow2, ByteLength, Scaled, Leading;
    ByteLengthBounds(x);
    LeadingBounds(x, n);
    ModSmall(Leading(x, n), 0x100_0000);
    if Leading(x, n) < SIGN {
      ShortExact(x, n);
    } else {
      ShortShifted(x, n);
    }
  }

  lemma EncodedFaithful(x: nat)
    requires 0 < x < Modulus()
    ensures Faithful(x, Encoded(x).0, Encoded(x).1)
  {
    hide Pow2, ByteLength, Faithful, Leading;
    var n := ByteLength(x);
    ByteLengthBounds(x);
    LeadingBounds(x, n);
    if n > 32 { Pow2Order(256, 8 * (n - 1)); }
    if n <= 3 && (n == 3 ==> Leading(x, n) < SIGN) {
      ShortFaithful(x, n);
    } else if Leading(x, n) < SIGN {
      KeptByte(x, n);
    } else {
      GivenUpByte(x, n);
    }
  }

  /**
   * Every positive 256-bit number has a compact form that decodes without sign or overflow to a number not above it,
   * short of it by less than one part in 2^15, which has the same compact form again.
   */
  lemma CompactRoundTrip(x: nat)
    requires 0 < x < Modulus()
    ensures var c := CompactOf(x, false);
            && 0 <= c < BASE && (c / SIGN) % 2 == 0
            && 0 < Magnitude(c) <= x && (x - Magnitude(c)) * 0x8000 < x
            && CompactOf(Magnitude(c), false) == c
  {
    hide Pow2, Scaled, Encoded;
    EncodedFaithful(x);
    var (word, size) := Encoded(x);
    var c := CompactOf(x, false);
    assert c % SIGN == word && c / 0x100_0000 == size;
  }

  // ----- work -----

  /** No target that a compact word denotes is the largest number, so the target plus one fits. */
  lemma TargetNotAllOnes(nCompact: nat)
    requires Magnitude(nCompact) < Modulus()
    ensures Magnitude(nCompact) + 1 < Modulus()
  {
    hide Pow2;
    var word, size := nCompact % SIGN, nCompact / 0x100_0000;
    Powers();
    if size <= 3 {
      QuotientBounds(word, Pow2(8 * (3 - size)));
      Pow2Order(24, 256);
    } else {
      Pow2Add(8, 8 * (size - 4));
      Pow2Add(8, 248);
      var p := Pow2(8 * (size - 4));
      assert word * (0x100 * p) == 0x100 * (word * p);
    }
  }

  lemma DivAntitone(n: int, d: int, e: int)
    requires n >= 0 && 0 < d <= e
    ensures n / e <= n / d
  {
    var q, r := n / d, n / e;
    assert n == q * d + n % d;
    assert n == r * e + n % e;
    QuotientBounds(n, e);
    if r > q {
      OneMore(q, r, d);
      MulOrder(d, e, r);
      assert false;
    }
  }

  /** A larger target never stands for more work. */
  lemma WorkAntitone(t: int, u: int)
    requires 0 <= t <= u
    ensures Modulus() / (u + 1) <= Modulus() / (t + 1)
  {
    DivAntitone(Modulus(), t + 1, u + 1);
  }

  /** Taking the divisor off the number takes one off the quotient. */
  lemma DivMinusOne(n: int, d: int)
    requires d > 0
    ensures (n - d) / d + 1 == n / d
  {
    var q, r := n / d, n % d;
    assert n == q * d + r;
    assert n - d == (q - 1) * d + r;
    DivUnique(n - d, d, q - 1, r);
  }

  lemma WorkFits(t: int)
    requires 1 <= t
    ensures 0 <= Modulus() / (t + 1) < Modulus()
  {
    DivAntitone(Modulus(), 2, t + 1);
    QuotientBounds(Modulus(), t + 1);
  }

  method GetBitsProof(bits: Limb) returns (work: BaseUint)
    ensures fresh(work.pn) && work.pn.Length == WIDTH
    ensures var t := Magnitude(bits);
            work.V() == if (bits / SIGN) % 2 == 1 || t >= Modulus() || t == 0 then 0 else Modulus() / (t + 1)
  {
    hide Pow2, Value, Weight, Magnitude;
    WidthIs();
    var target := new BaseUint(WIDTH);
    var negative, overflow := SetCompact(target, bits);
    ghost var t := Magnitude(bits);
    if t < Modulus() { ModSmall(t, Modulus()); }
    var zero := target.EqualTo(0);
    if negative || overflow || zero {
      work := new BaseUint(WIDTH);
      return;
    }
    TargetNotAllOnes(bits);
    WorkFits(t);
    var one := new BaseUint(WIDTH);
    one.Assign(1);
    work := target.Not();
    target.Add(one);
    ModSmall(t + 1, Modulus());
    var ok, rest := work.Divide(target);
    DivMinusOne(Modulus(), t + 1);
    work.Add(one);
    ModSmall(Modulus() / (t + 1), Modulus());
  }
}
