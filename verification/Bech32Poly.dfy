/** The checksum of Bech32 and Bech32m: a polynomial remainder over bit vectors. */
module Bech32Poly {

  const GEN1: bv32 := 0x3b6a57b2
  const GEN2: bv32 := 0x26508e6d
  const GEN4: bv32 := 0x1ea119fa
  const GEN8: bv32 := 0x3d4233dd
  const GEN16: bv32 := 0x2a1462b3

  /** One past the largest remainder: six values of five bits. */
  const LIMIT: bv32 := 0x4000_0000

  function Xor(a: bv32, b: bv32): bv32 { a ^ b }

  function Pick(c: bv32, bit: bv32, gen: bv32): bv32 {
    if c & bit != 0 then gen else 0
  }

  /** The multiple of the generator that the five bits of c0 select. */
  function Feedback(c0: bv32): bv32 {
    Xor(Xor(Xor(Xor(Pick(c0, 1, GEN1), Pick(c0, 2, GEN2)), Pick(c0, 4, GEN4)), Pick(c0, 8, GEN8)), Pick(c0, 16, GEN16))
  }

  function Shifted(c: bv32): bv32 { (c & 0x1ffffff) << 5 }

  function Widen(v: bv8): bv32 { v as bv32 }

  /** One round of PolyMod: the remainder times x, plus the next value. */
  function Step(c: bv32, v: bv8): bv32 {
    Xor(Xor(Shifted(c), Widen(v)), Feedback(c >> 25))
  }

  /** The remainder of a list of values, the first of them leading, with a one in front. */
  function PolyMod(v: seq<bv8>): bv32 {
    After(1, v)
  }

  /** The remainder after the values v have followed the remainder c. */
  function After(c: bv32, v: seq<bv8>): bv32
    decreases |v|
  {
    if v == [] then c else Step(After(c, v[..|v| - 1]), v[|v| - 1])
  }

  method ComputePolyMod(v: seq<bv8>) returns (c: bv32)
    ensures c == PolyMod(v)
  {
    hide Step;
    c := 1;
    var i := 0;
    while i < |v|
      invariant 0 <= i <= |v| && c == After(1, v[..i])
    {
      assert v[..i + 1][..i] == v[..i];
      c := Update(c, v[i]);
      i := i + 1;
    }
    assert v[..i] == v;
  }

  method Update(before: bv32, v: bv8) returns (c: bv32)
    ensures c == Step(before, v)
  {
    hide Xor, Shifted, Widen;
    var c0 := before >> 25;
    c := Xor(Shifted(before), Widen(v));
    ghost var start := c;
    if c0 & 1 != 0 { c := Xor(c, GEN1); }
    if c0 & 2 != 0 { c := Xor(c, GEN2); }
    if c0 & 4 != 0 { c := Xor(c, GEN4); }
    if c0 & 8 != 0 { c := Xor(c, GEN8); }
    if c0 & 16 != 0 { c := Xor(c, GEN16); }
    FoldFeedback(start, c0);
  }

  /** Adding the picked multiples one after another is adding their sum. */
  lemma FoldFeedback(c: bv32, c0: bv32)
    ensures Add(Add(Add(Add(Add(c, c0, 1, GEN1), c0, 2, GEN2), c0, 4, GEN4), c0, 8, GEN8), c0, 16, GEN16)
            == Xor(c, Feedback(c0))
  {
    hide Xor, Pick;
    var p, q, r, s, t := Pick(c0, 1, GEN1), Pick(c0, 2, GEN2), Pick(c0, 4, GEN4),
                         Pick(c0, 8, GEN8), Pick(c0, 16, GEN16);
    AddIsXor(c, c0, 1, GEN1);
    AddIsXor(Xor(c, p), c0, 2, GEN2);
    XorGroups(c, p, q);
    AddIsXor(Xor(c, Xor(p, q)), c0, 4, GEN4);
    XorGroups(c, Xor(p, q), r);
    AddIsXor(Xor(c, Xor(Xor(p, q), r)), c0, 8, GEN8);
    XorGroups(c, Xor(Xor(p, q), r), s);
    AddIsXor(Xor(c, Xor(Xor(Xor(p, q), r), s)), c0, 16, GEN16);
    XorGroups(c, Xor(Xor(Xor(p, q), r), s), t);
  }

  function Add(c: bv32, c0: bv32, bit: bv32, gen: bv32): bv32 {
    if c0 & bit != 0 then Xor(c, gen) else c
  }

  lemma AddIsXor(c: bv32, c0: bv32, bit: bv32, gen: bv32)
    ensures Add(c, c0, bit, gen) == Xor(c, Pick(c0, bit, gen))
  {
    hide Xor;
    XorSelf(c);
  }

  lemma XorGroups(a: bv32, b: bv32, c: bv32)
    ensures Xor(Xor(a, b), c) == Xor(a, Xor(b, c))
  {
  }

  // ----- the step is linear and one-to-one -----

  lemma StepRange(c: bv32, v: bv8)
    requires c < LIMIT && v < 32
    ensures Step(c, v) < LIMIT
  {
  }

  lemma XorSwap(a: bv32, b: bv32, c: bv32, d: bv32)
    ensures Xor(Xor(a, b), Xor(c, d)) == Xor(Xor(a, c), Xor(b, d))
  {
    hide Xor;
    XorGroups(a, b, Xor(c, d));
    XorGroups(b, c, d);
    XorCommutes(b, c);
    XorGroups(c, b, d);
    XorGroups(a, c, Xor(b, d));
  }

  lemma XorCommutes(a: bv32, b: bv32)
    ensures Xor(a, b) == Xor(b, a)
  {
  }

  lemma XorSelf(a: bv32)
    ensures Xor(a, a) == 0 && Xor(a, 0) == a && Xor(0, a) == a
  {
  }

  lemma XorRange(a: bv32, b: bv32)
    requires a < LIMIT && b < LIMIT
    ensures Xor(a, b) < LIMIT
    ensures Xor(a, b) == 0 ==> a == b
  {
  }

  lemma PickLinear(a: bv32, b: bv32, bit: bv32, gen: bv32)
    requires bit == 1 || bit == 2 || bit == 4 || bit == 8 || bit == 16
    ensures Pick(Xor(a, b), bit, gen) == Xor(Pick(a, bit, gen), Pick(b, bit, gen))
  {
    hide Xor;
    OneBit(a, b, bit);
    XorSelf(gen);
    XorSelf(0);
  }

  lemma OneBit(a: bv32, b: bv32, bit: bv32)
    requires bit == 1 || bit == 2 || bit == 4 || bit == 8 || bit == 16
    ensures Xor(a, b) & bit != 0 <==> (a & bit != 0) != (b & bit != 0)
  {
  }

  lemma FeedbackLinear(a: bv32, b: bv32)
    ensures Feedback(Xor(a, b)) == Xor(Feedback(a), Feedback(b))
  {
    hide Pick, Xor;
    PickLinear(a, b, 1, GEN1);
    PickLinear(a, b, 2, GEN2);
    PickLinear(a, b, 4, GEN4);
    PickLinear(a, b, 8, GEN8);
    PickLinear(a, b, 16, GEN16);
    var p, q, r, s, t := Pick(a, 1, GEN1), Pick(a, 2, GEN2), Pick(a, 4, GEN4), Pick(a, 8, GEN8), Pick(a, 16, GEN16);
    var p', q', r', s', t' := Pick(b, 1, GEN1), Pick(b, 2, GEN2), Pick(b, 4, GEN4),
                              Pick(b, 8, GEN8), Pick(b, 16, GEN16);
    XorSwap(p, p', q, q');
    XorSwap(Xor(p, q), Xor(p', q'), r, r');
    XorSwap(Xor(Xor(p, q), r), Xor(Xor(p', q'), r'), s, s');
    XorSwap(Xor(Xor(Xor(p, q), r), s), Xor(Xor(Xor(p', q'), r'), s'), t, t');
  }

  lemma PartsLinear(a: bv32, b: bv32, u: bv8, v: bv8)
    ensures Shifted(Xor(a, b)) == Xor(Shifted(a), Shifted(b))
    ensures Xor(a, b) >> 25 == Xor(a >> 25, b >> 25)
    ensures Widen(u ^ v) == Xor(Widen(u), Widen(v))
  {
  }

  lemma StepLinear(a: bv32, b: bv32, u: bv8, v: bv8)
    ensures Step(Xor(a, b), u ^ v) == Xor(Step(a, u), Step(b, v))
  {
    hide Feedback, Shifted, Xor, Widen;
    PartsLinear(a, b, u, v);
    FeedbackLinear(a >> 25, b >> 25);
    XorSwap(Shifted(a), Shifted(b), Widen(u), Widen(v));
    XorSwap(Xor(Shifted(a), Widen(u)), Xor(Shifted(b), Widen(v)), Feedback(a >> 25), Feedback(b >> 25));
  }

  /** The generator's multiples differ in their last value. */
  lemma FeedbackLow(c0: bv32)
    requires c0 < 32 && Feedback(c0) & 31 == 0
    ensures c0 == 0
  {
  }

  lemma NoFeedback()
    ensures Feedback(0) == 0
  {
  }

  lemma StepZero(d: bv32)
    requires d < LIMIT && Step(d, 0) == 0
    ensures d == 0
  {
    hide Feedback;
    assert (Shifted(d) ^ 0 ^ Feedback(d >> 25)) & 31 == Feedback(d >> 25) & 31;
    FeedbackLow(d >> 25);
    NoFeedback();
  }

  /** No two remainders lead to the same one on the same value. */
  lemma StepInjective(a: bv32, b: bv32, v: bv8)
    requires a < LIMIT && b < LIMIT && Step(a, v) == Step(b, v)
    ensures a == b
  {
    hide Step, Xor;
    StepLinear(a, b, v, v);
    assert v ^ v == 0;
    XorSelf(Step(a, v));
    XorRange(a, b);
    StepZero(Xor(a, b));
  }

  // ----- windows of six values -----

  predicate FiveBits(v: seq<bv8>) { forall i | 0 <= i < |v| :: v[i] < 32 }

  function XorAll(u: seq<bv8>, v: seq<bv8>): seq<bv8>
    requires |u| == |v|
  {
    seq(|u|, i requires 0 <= i < |u| => u[i] ^ v[i])
  }

  lemma {:induction false} AfterRange(c: bv32, v: seq<bv8>)
    requires c < LIMIT && FiveBits(v)
    ensures After(c, v) < LIMIT
    decreases |v|
  {
    hide Step;
    if v != [] {
      AfterRange(c, v[..|v| - 1]);
      StepRange(After(c, v[..|v| - 1]), v[|v| - 1]);
    }
  }

  lemma {:induction false} AfterConcat(c: bv32, u: seq<bv8>, v: seq<bv8>)
    ensures After(c, u + v) == After(After(c, u), v)
    decreases |v|
  {
    hide Step;
    if v == [] {
      assert u + v == u;
    } else {
      var n := |v| - 1;
      assert (u + v)[..|u| + n] == u + v[..n];
      AfterConcat(c, u, v[..n]);
    }
  }

  lemma {:induction false} AfterLinear(a: bv32, b: bv32, u: seq<bv8>, v: seq<bv8>)
    requires |u| == |v|
    ensures After(Xor(a, b), XorAll(u, v)) == Xor(After(a, u), After(b, v))
    decreases |u|
  {
    hide Step, Xor;
    if u != [] {
      var n := |u| - 1;
      assert XorAll(u, v)[..n] == XorAll(u[..n], v[..n]);
      AfterLinear(a, b, u[..n], v[..n]);
      StepLinear(After(a, u[..n]), After(b, v[..n]), u[n], v[n]);
    }
  }

  lemma {:induction false} AfterInjective(a: bv32, b: bv32, v: seq<bv8>)
    requires a < LIMIT && b < LIMIT && FiveBits(v) && After(a, v) == After(b, v)
    ensures a == b
    decreases |v|
  {
    hide Step;
    if v != [] {
      var n := |v| - 1;
      AfterRange(a, v[..n]);
      AfterRange(b, v[..n]);
      StepInjective(After(a, v[..n]), After(b, v[..n]), v[n]);
      AfterInjective(a, b, v[..n]);
    }
  }

  /** Six values side by side, the first in the highest bits. */
  function Pack(v: seq<bv8>): bv32
    requires |v| <= 6
    decreases |v|
  {
    if v == [] then 0 else Append(Pack(v[..|v| - 1]), v[|v| - 1])
  }

  function Append(c: bv32, v: bv8): bv32 { Xor(c << 5, Widen(v)) }

  /** Below 2^25 a step only appends its value. */
  lemma StepAppends(c: bv32, v: bv8)
    requires c < 0x200_0000
    ensures Step(c, v) == Append(c, v)
  {
    hide Feedback;
    NoFeedback();
    assert c >> 25 == 0 && c & 0x1ffffff == c;
    XorSelf(Append(c, v));
  }

  function Room(n: nat): bv32
    requires n <= 6
  {
    if n == 0 then 1 else if n == 1 then 0x20 else if n == 2 then 0x400 else if n == 3 then 0x8000
    else if n == 4 then 0x10_0000 else if n == 5 then 0x200_0000 else 0x4000_0000
  }

  lemma AppendRoom(c: bv32, v: bv8, n: nat)
    requires n < 6 && c < Room(n) && v < 32
    ensures Append(c, v) < Room(n + 1)
    ensures Append(c, v) == 0 ==> c == 0 && v == 0
  {
  }

  lemma {:induction false} AfterPacks(v: seq<bv8>)
    requires |v| <= 6 && FiveBits(v)
    ensures After(0, v) == Pack(v) < Room(|v|)
    ensures Pack(v) == 0 ==> forall i | 0 <= i < |v| :: v[i] == 0
    decreases |v|
  {
    hide Step, Append;
    if v != [] {
      var n := |v| - 1;
      AfterPacks(v[..n]);
      StepAppends(Pack(v[..n]), v[n]);
      AppendRoom(Pack(v[..n]), v[n], n);
    }
  }

  /** Equal outside a window of six consecutive values. */
  ghost predicate DifferInWindow(u: seq<bv8>, v: seq<bv8>, k: nat) {
    && |u| == |v| && k + 6 <= |u|
    && u[..k] == v[..k] && u[k + 6..] == v[k + 6..]
  }

  /** Different values within a window of six lead to different remainders. */
  lemma WindowDiffers(c: bv32, u: seq<bv8>, v: seq<bv8>)
    requires c < LIMIT && |u| == |v| <= 6 && FiveBits(u) && FiveBits(v) && After(c, u) == After(c, v)
    ensures u == v
  {
    hide After, Xor, Pack;
    AfterLinear(c, c, u, v);
    XorSelf(c);
    XorSelf(After(c, u));
    XorFive(u, v);
    AfterPacks(XorAll(u, v));
    forall i | 0 <= i < |u| ensures u[i] == v[i] {
      assert XorAll(u, v)[i] == 0;
      ZeroMeansEqual(u[i], v[i]);
    }
  }

  lemma XorFive(u: seq<bv8>, v: seq<bv8>)
    requires |u| == |v| && FiveBits(u) && FiveBits(v)
    ensures FiveBits(XorAll(u, v))
  {
    forall i | 0 <= i < |u| ensures XorAll(u, v)[i] < 32 { FiveXor(u[i], v[i]); }
  }

  lemma FiveXor(a: bv8, b: bv8)
    requires a < 32 && b < 32
    ensures a ^ b < 32
  {
  }

  lemma ZeroMeansEqual(a: bv8, b: bv8)
    requires a ^ b == 0
    ensures a == b
  {
  }

  /** Corrupting values inside some window of six consecutive places always changes the remainder. */
  lemma CorruptionChangesPolyMod(u: seq<bv8>, v: seq<bv8>, k: nat)
    requires FiveBits(u) && FiveBits(v) && DifferInWindow(u, v, k) && u != v
    ensures PolyMod(u) != PolyMod(v)
  {
    hide After;
    var a, b := u[k..k + 6], v[k..k + 6];
    assert u == u[..k] + a + u[k + 6..];
    assert v == v[..k] + b + v[k + 6..];
    if PolyMod(u) == PolyMod(v) {
      SplitWindow(u, k);
      SplitWindow(v, k);
      var c := After(1, u[..k]);
      AfterRange(1, u[..k]);
      AfterRange(c, a);
      AfterRange(c, b);
      AfterInjective(After(c, a), After(c, b), u[k + 6..]);
      WindowDiffers(c, a, b);
    }
  }

  lemma SplitWindow(u: seq<bv8>, k: nat)
    requires k + 6 <= |u|
    ensures PolyMod(u) == After(After(After(1, u[..k]), u[k..k + 6]), u[k + 6..])
  {
    hide After;
    assert u == u[..k] + u[k..];
    AfterConcat(1, u[..k], u[k..]);
    assert u[k..] == u[k..k + 6] + u[k + 6..];
    AfterConcat(After(1, u[..k]), u[k..k + 6], u[k + 6..]);
  }

  // ----- the checksum -----

  /** The six values that a 30-bit number is made of. */
  function Unpack(m: bv32): (r: seq<bv8>)
    ensures |r| == 6
  {
    [Low(Shift(m, 5)), Low(Shift(m, 4)), Low(Shift(m, 3)), Low(Shift(m, 2)), Low(Shift(m, 1)), Low(m)]
  }

  /** m without its last n groups of five bits. */
  function Shift(m: bv32, n: nat): bv32 {
    if n == 0 then m else Down(Shift(m, n - 1))
  }

  function Down(m: bv32): bv32 { m >> 5 }

  /** The last five bits. */
  function Low(m: bv32): bv8 { (m & 31) as bv8 }

  function SixZeroes(): seq<bv8> { [0, 0, 0, 0, 0, 0] }

  /** The values that, in place of six zeroes at the end, make the remainder `target`. */
  function ChecksumFor(values: seq<bv8>, target: bv32): seq<bv8> {
    Unpack(Xor(PolyMod(values + SixZeroes()), target))
  }

  lemma UnpackFive(m: bv32)
    ensures FiveBits(Unpack(m))
  {
    hide Low, Shift;
    forall x ensures Low(x) < 32 { LowFive(x); }
  }

  lemma LowFive(m: bv32)
    ensures Low(m) < 32 && Widen(Low(m)) == m & 31
  {
  }

  /** Appending the last five bits of a number to the rest of it. */
  lemma AppendLow(m: bv32)
    ensures Append(Down(m), Low(m)) == m
  {
    hide Low;
    LowFive(m);
  }

  lemma ShiftAppends(m: bv32, n: nat)
    ensures Append(Shift(m, n + 1), Low(Shift(m, n))) == Shift(m, n)
  {
    hide Low, Append, Down;
    AppendLow(Shift(m, n));
  }

  predicate InRoom(m: bv32, n: nat) { n <= 6 && m < Room(n) }

  lemma {:induction false} ShiftFits(m: bv32, n: nat)
    requires m < LIMIT && n <= 6
    ensures InRoom(Shift(m, n), 6 - n)
  {
    hide InRoom, Down;
    if n == 0 {
      AllRoom(m);
    } else {
      ShiftFits(m, n - 1);
      Narrow(Shift(m, n - 1), 6 - n);
    }
  }

  lemma AllRoom(m: bv32)
    requires m < LIMIT
    ensures InRoom(m, 6)
  {
  }

  lemma Narrow(m: bv32, n: nat)
    requires n < 6 && InRoom(m, n + 1)
    ensures InRoom(Down(m), n)
  {
  }

  lemma PackUnpack(m: bv32)
    requires m < LIMIT
    ensures Pack(Unpack(m)) == m
  {
    hide Append, Low, Pack, Shift;
    ShiftAppends(m, 5);
    ShiftAppends(m, 4);
    ShiftAppends(m, 3);
    ShiftAppends(m, 2);
    ShiftAppends(m, 1);
    ShiftAppends(m, 0);
    ShiftEnds(m);
    PackSix(Unpack(m));
  }

  lemma ShiftEnds(m: bv32)
    requires m < LIMIT
    ensures Shift(m, 0) == m && Shift(m, 6) == 0
  {
    ShiftFits(m, 6);
    NoRoom(Shift(m, 6));
  }

  lemma NoRoom(m: bv32)
    requires InRoom(m, 0)
    ensures m == 0
  {
  }

  lemma PackSix(v: seq<bv8>)
    requires |v| == 6
    ensures Pack(v) == Append(Append(Append(Append(Append(Append(0, v[0]), v[1]), v[2]), v[3]), v[4]), v[5])
  {
    hide Append;
    PackLast(v, 6);
    PackLast(v, 5);
    PackLast(v, 4);
    PackLast(v, 3);
    PackLast(v, 2);
    PackLast(v, 1);
    assert v[..6] == v;
    assert v[..0] == [];
  }

  lemma PackLast(v: seq<bv8>, n: nat)
    requires 0 < n <= |v| == 6
    ensures Pack(v[..n]) == Append(Pack(v[..n - 1]), v[n - 1])
  {
    hide Append;
    assert v[..n][..n - 1] == v[..n - 1];
  }

  /** The checksum makes the remainder what it is meant to be. */
  lemma ChecksumWorks(values: seq<bv8>, target: bv32)
    requires FiveBits(values) && target < LIMIT
    ensures var cs := ChecksumFor(values, target); |cs| == 6 && FiveBits(cs) && PolyMod(values + cs) == target
  {
    hide After, Xor, Pack, Unpack;
    var zeroes := SixZeroes();
    var c := After(1, values);
    AfterConcat(1, values, zeroes);
    AfterRange(1, values);
    AfterRange(c, zeroes);
    var m := Xor(PolyMod(values + zeroes), target);
    XorRange(After(c, zeroes), target);
    UnpackFive(m);
    var cs := Unpack(m);
    AfterConcat(1, values, cs);
    AfterLinear(c, 0, zeroes, cs);
    XorSelf(c);
    WithZeroes(cs);
    AfterPacks(cs);
    PackUnpack(m);
    XorGroups(After(c, zeroes), After(c, zeroes), target);
    XorSelf(After(c, zeroes));
    XorSelf(target);
  }

  lemma WithZeroes(v: seq<bv8>)
    requires |v| == 6
    ensures XorAll(SixZeroes(), v) == v
  {
    forall i | 0 <= i < 6 ensures XorAll(SixZeroes(), v)[i] == v[i] { ZeroXor(v[i]); }
  }

  lemma ZeroXor(v: bv8)
    ensures 0 ^ v == v
  {
  }

  /** It is the only one that does. */
  lemma ChecksumUnique(values: seq<bv8>, cs: seq<bv8>, target: bv32)
    requires FiveBits(values) && FiveBits(cs) && |cs| == 6 && target < LIMIT && PolyMod(values + cs) == target
    ensures cs == ChecksumFor(values, target)
  {
    hide After, ChecksumFor, FiveBits;
    ChecksumWorks(values, target);
    var right := ChecksumFor(values, target);
    FiveConcat(values, cs);
    FiveConcat(values, right);
    AfterConcat(1, values, cs);
    AfterConcat(1, values, right);
    AfterRange(1, values);
    WindowDiffers(After(1, values), cs, right);
  }

  lemma FiveConcat(u: seq<bv8>, v: seq<bv8>)
    requires FiveBits(u) && FiveBits(v)
    ensures FiveBits(u + v)
  {
  }
}
