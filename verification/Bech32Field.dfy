/** What the checksum is: the remainder of a polynomial division over the field with 32 elements. */
module Bech32Field {
  import opened Bech32Poly

  // ----- the field -----

  /** Multiplication by x in GF(32), the binary polynomials modulo x^5 + x^3 + 1. */
  function TimesX(a: bv32): bv32 {
    if a & 16 != 0 then ((a & 15) << 1) ^ 9 else (a & 15) << 1
  }

  /** The product of two elements of GF(32): the bits of the second select multiples of the first. */
  function Gf32(a: bv32, b: bv32): bv32 {
    var a1 := TimesX(a);
    var a2 := TimesX(a1);
    var a3 := TimesX(a2);
    var a4 := TimesX(a3);
    Pick(b, 1, a) ^ Pick(b, 2, a1) ^ Pick(b, 4, a2) ^ Pick(b, 8, a3) ^ Pick(b, 16, a4)
  }

  /** The coefficient of x^k in a remainder. */
  function Coefficient(c: bv32, k: nat): bv32
    requires k < 6
  {
    if k == 0 then Digit(c) else if k == 1 then Digit(c >> 5) else if k == 2 then Digit(c >> 10)
    else if k == 3 then Digit(c >> 15) else if k == 4 then Digit(c >> 20) else Digit(c >> 25)
  }

  function Digit(c: bv32): bv32 { c & 31 }

  /** The generator of BIP 173, x^6 + 29 x^5 + 22 x^4 + 20 x^3 + 21 x^2 + 29 x + 18, without its leading term. */
  function Generator(k: nat): bv32
    requires k < 6
  {
    if k == 0 then 18 else if k == 1 then 29 else if k == 2 then 21
    else if k == 3 then 20 else if k == 4 then 22 else 29
  }

  // ----- one round -----

  lemma FeedbackLowHalf(c: bv32)
    requires c < 32
    ensures Coefficient(Feedback(c), 0) == Gf32(c, 18)
    ensures Coefficient(Feedback(c), 1) == Gf32(c, 29)
    ensures Coefficient(Feedback(c), 2) == Gf32(c, 21)
  {
  }

  lemma FeedbackHighHalf(c: bv32)
    requires c < 32
    ensures Coefficient(Feedback(c), 3) == Gf32(c, 20)
    ensures Coefficient(Feedback(c), 4) == Gf32(c, 22)
    ensures Coefficient(Feedback(c), 5) == Gf32(c, 29)
  {
  }

  /** The five words of the source hold the multiples of the generator, for all 32 factors. */
  lemma FeedbackIsMultiple(c: bv32, k: nat)
    requires c < 32 && k < 6
    ensures Coefficient(Feedback(c), k) == Gf32(c, Generator(k))
  {
    hide Feedback, Gf32, Coefficient;
    FeedbackLowHalf(c);
    FeedbackHighHalf(c);
  }

  lemma CoefficientXor(a: bv32, b: bv32, k: nat)
    requires k < 6
    ensures Coefficient(Xor(a, b), k) == Xor(Coefficient(a, k), Coefficient(b, k))
  {
    hide Xor, Digit;
    Digit0Xor(a, b);
    Digit5Xor(a, b);
    Digit10Xor(a, b);
    Digit15Xor(a, b);
    Digit20Xor(a, b);
    Digit25Xor(a, b);
  }

  lemma Digit0Xor(a: bv32, b: bv32)
    ensures Digit(Xor(a, b)) == Xor(Digit(a), Digit(b))
  {
  }

  lemma Digit5Xor(a: bv32, b: bv32)
    ensures Digit(Xor(a, b) >> 5) == Xor(Digit(a >> 5), Digit(b >> 5))
  {
  }

  lemma Digit10Xor(a: bv32, b: bv32)
    ensures Digit(Xor(a, b) >> 10) == Xor(Digit(a >> 10), Digit(b >> 10))
  {
  }

  lemma Digit15Xor(a: bv32, b: bv32)
    ensures Digit(Xor(a, b) >> 15) == Xor(Digit(a >> 15), Digit(b >> 15))
  {
  }

  lemma Digit20Xor(a: bv32, b: bv32)
    ensures Digit(Xor(a, b) >> 20) == Xor(Digit(a >> 20), Digit(b >> 20))
  {
  }

  lemma Digit25Xor(a: bv32, b: bv32)
    ensures Digit(Xor(a, b) >> 25) == Xor(Digit(a >> 25), Digit(b >> 25))
  {
  }

  lemma CoefficientShifted(c: bv32, v: bv8, k: nat)
    requires c < LIMIT && v < 32 && k < 6
    ensures Coefficient(Xor(Shifted(c), Widen(v)), k) == if k == 0 then Widen(v) else Coefficient(c, k - 1)
    ensures c >> 25 == Coefficient(c, 5) < 32
  {
    hide Xor, Shifted, Widen, Digit;
    ShiftedLow(c, v);
    ShiftedHigh(c, v);
  }

  lemma ShiftedLow(c: bv32, v: bv8)
    requires v < 32
    ensures var x := Xor(Shifted(c), Widen(v));
            Digit(x) == Widen(v) && Digit(x >> 5) == Digit(c) && Digit(x >> 10) == Digit(c >> 5)
  {
  }

  lemma ShiftedHigh(c: bv32, v: bv8)
    requires c < LIMIT && v < 32
    ensures var x := Xor(Shifted(c), Widen(v));
            && Digit(x >> 15) == Digit(c >> 10) && Digit(x >> 20) == Digit(c >> 15) && Digit(x >> 25) == Digit(c >> 20)
            && c >> 25 == Digit(c >> 25) < 32
  {
  }

  /** A round is one step of the division: times x, plus the next value, minus a multiple of the generator. */
  lemma StepDivides(c: bv32, v: bv8, k: nat)
    requires c < LIMIT && v < 32 && k < 6
    ensures Coefficient(Step(c, v), k) ==
            Xor(if k == 0 then Widen(v) else Coefficient(c, k - 1), Gf32(Coefficient(c, 5), Generator(k)))
  {
    hide Feedback, Gf32, Coefficient, Xor, Shifted, Widen, Generator;
    CoefficientShifted(c, v, k);
    CoefficientXor(Xor(Shifted(c), Widen(v)), Feedback(c >> 25), k);
    FeedbackIsMultiple(c >> 25, k);
  }

  // ----- the whole division -----

  // Polynomials are lists of coefficients, the leading one first.

  /** Adds t to the end of p. */
  function AddTail(p: seq<bv32>, t: seq<bv32>): (r: seq<bv32>)
    requires |t| <= |p|
    ensures |r| == |p|
  {
    seq(|p|, i requires 0 <= i < |p| => if i < |p| - |t| then p[i] else Xor(p[i], t[i - (|p| - |t|)]))
  }

  /** a times the generator. */
  function Scaled(a: bv32): (r: seq<bv32>)
    ensures |r| == 7
  {
    seq(7, i requires 0 <= i < 7 => if i == 0 then a else Gf32(a, Generator(6 - i)))
  }

  /** q times the generator. */
  function Product(q: seq<bv32>): (r: seq<bv32>)
    ensures |r| == |q| + 6
    decreases |q|
  {
    if q == [] then [0, 0, 0, 0, 0, 0]
    else
      var n := |q| - 1;
      AddTail(Product(q[..n]) + [0], Scaled(q[n]))
  }

  /** The remainder as a polynomial. */
  function Remainder(c: bv32): (r: seq<bv32>)
    ensures |r| == 6
  {
    seq(6, i requires 0 <= i < 6 => Coefficient(c, 5 - i))
  }

  function Widened(v: seq<bv8>): seq<bv32> {
    seq(|v|, i requires 0 <= i < |v| => Widen(v[i]))
  }

  /** The polynomial of a list of values: a one in front of them. */
  function Polynomial(v: seq<bv8>): seq<bv32> { [0, 0, 0, 0, 0, 1] + Widened(v) }

  function Quotient(v: seq<bv8>): (q: seq<bv32>)
    ensures |q| == |v|
    decreases |v|
  {
    if v == [] then []
    else
      var n := |v| - 1;
      Quotient(v[..n]) + [Coefficient(PolyMod(v[..n]), 5)]
  }

  /** PolyMod is the remainder: the polynomial of the values is the quotient times the generator, plus it. */
  lemma {:induction false} PolyModDivides(v: seq<bv8>)
    requires FiveBits(v)
    ensures Polynomial(v) == AddTail(Product(Quotient(v)), Remainder(PolyMod(v)))
    decreases |v|
  {
    hide Coefficient, Gf32, Generator, Xor, Step, Widen, AddTail, Scaled, Remainder;
    if v == [] {
      FirstRemainder();
    } else {
      var n := |v| - 1;
      PolyModDivides(v[..n]);
      var c := PolyMod(v[..n]);
      FirstInRange();
      AfterRange(1, v[..n]);
      assert Polynomial(v) == Polynomial(v[..n]) + [Widen(v[n])];
      DivisionStep(Product(Quotient(v[..n])), c, v[n]);
      assert PolyMod(v) == Step(c, v[n]);
      assert Quotient(v)[..n] == Quotient(v[..n]);
    }
  }

  lemma FirstInRange()
    ensures 1 < LIMIT
  {
  }

  lemma FirstRemainder()
    ensures [0, 0, 0, 0, 0, 1] + Widened([]) == AddTail([0, 0, 0, 0, 0, 0], Remainder(1))
  {
    assert Remainder(1) == [0, 0, 0, 0, 0, 1];
  }

  lemma DivisionStep(p: seq<bv32>, c: bv32, v: bv8)
    requires |p| >= 6 && c < LIMIT && v < 32
    ensures AddTail(p, Remainder(c)) + [Widen(v)] ==
            AddTail(AddTail(p + [0], Scaled(Coefficient(c, 5))), Remainder(Step(c, v)))
  {
    hide Coefficient, Gf32, Generator, Xor, Step, Widen, AddTail, Scaled, Remainder;
    var left := AddTail(p, Remainder(c)) + [Widen(v)];
    var mid := AddTail(p + [0], Scaled(Coefficient(c, 5)));
    var right := AddTail(mid, Remainder(Step(c, v)));
    forall i | 0 <= i < |left| ensures left[i] == right[i] {
      LeftAt(p, c, v, i);
      RightAt(p, c, v, i);
      if i > |p| - 6 {
        var k := |p| - i;
        StepDivides(c, v, k);
        var next := if k == 0 then Widen(v) else Coefficient(c, k - 1);
        Cancels((p + [0])[i], next, Gf32(Coefficient(c, 5), Generator(k)));
        XorSelf(Widen(v));
      }
    }
  }

  lemma LeftAt(p: seq<bv32>, c: bv32, v: bv8, i: nat)
    requires |p| >= 6 && i <= |p|
    ensures (AddTail(p, Remainder(c)) + [Widen(v)])[i] ==
            if i < |p| - 6 then p[i] else if i < |p| then Xor(p[i], Coefficient(c, |p| - 1 - i)) else Widen(v)
  {
    hide Coefficient, Xor, Widen;
  }

  lemma RightAt(p: seq<bv32>, c: bv32, v: bv8, i: nat)
    requires |p| >= 6 && i <= |p|
    ensures var a := Coefficient(c, 5);
            AddTail(AddTail(p + [0], Scaled(a)), Remainder(Step(c, v)))[i] ==
            if i < |p| - 6 then p[i]
            else if i == |p| - 6 then Xor(p[i], a)
            else Xor(Xor((p + [0])[i], Gf32(a, Generator(|p| - i))), Coefficient(Step(c, v), |p| - i))
  {
    hide Coefficient, Xor, Widen, Gf32, Generator, Step;
  }

  lemma Cancels(a: bv32, b: bv32, g: bv32)
    ensures Xor(Xor(a, g), Xor(b, g)) == Xor(a, b)
  {
    hide Xor;
    XorSwap(a, g, b, g);
    XorSelf(g);
    XorSelf(Xor(a, b));
  }
}
