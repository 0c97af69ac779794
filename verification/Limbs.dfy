/** Numbers as lists of 32-bit limbs, least significant first. */
module Limbs {
  import opened Numbers

  const BASE := 0x1_0000_0000

  type Limb = x: int | 0 <= x < 0x1_0000_0000

  /** The weight of limb n. */
  function Weight(n: nat): (r: int)
    ensures r >= 1
  {
    Pow2(32 * n)
  }

  function Value(s: seq<Limb>): (r: int)
    ensures r >= 0
    decreases |s|
  {
    if s == [] then 0 else Value(s[..|s| - 1]) + s[|s| - 1] * Weight(|s| - 1)
  }

  lemma WeightNext(n: nat)
    ensures Weight(n + 1) == Weight(n) * BASE
  {
    Pow2Add(32 * n, 32);
    Word();
  }

  lemma FirstWeight()
    ensures Weight(0) == 1
  {
  }

  lemma WeightAdd(m: nat, n: nat)
    ensures Weight(m + n) == Weight(m) * Weight(n)
  {
    Pow2Add(32 * m, 32 * n);
  }

  lemma Word()
    ensures Pow2(32) == BASE
  {
    assert Pow2(8) == 256;
    Pow2Add(8, 8);
    Pow2Add(16, 16);
  }

  lemma {:induction false} ValueBound(s: seq<Limb>)
    ensures Value(s) < Weight(|s|)
    decreases |s|
  {
    if s != [] {
      var n := |s| - 1;
      ValueBound(s[..n]);
      WeightNext(n);
      OneMore(s[n], BASE, Weight(n));
    }
  }

  lemma OneMore(x: int, y: int, w: nat)
    requires x < y
    ensures x * w + w <= y * w
  {
    MulOrder(x + 1, y, w);
    assert (x + 1) * w == x * w + w;
  }

  /** One more limb at the top. */
  lemma ValuePush(s: seq<Limb>, i: nat)
    requires i < |s|
    ensures Value(s[..i + 1]) == Value(s[..i]) + s[i] * Weight(i)
  {
    assert s[..i + 1][..i] == s[..i];
  }

  lemma {:induction false} ValueSet(s: seq<Limb>, i: nat, x: Limb)
    requires i < |s|
    ensures Value(s[i := x]) == Value(s) + (x - s[i]) * Weight(i)
    decreases |s|
  {
    var n := |s| - 1;
    if i < n {
      assert s[i := x][..n] == s[..n][i := x];
      ValueSet(s[..n], i, x);
    } else {
      assert s[i := x][..n] == s[..n];
      assert x * Weight(n) == s[n] * Weight(n) + (x - s[n]) * Weight(n);
    }
  }

  lemma {:induction false} ValueSplit(s: seq<Limb>, k: nat)
    requires k <= |s|
    ensures Value(s) == Value(s[..k]) + Weight(k) * Value(s[k..])
    decreases |s|
  {
    var n := |s| - 1;
    if k == |s| {
      assert s[..k] == s;
    } else {
      ValueSplit(s[..n], k);
      assert s[..n][..k] == s[..k];
      assert s[..n][k..] == s[k..n];
      assert s[k..][..n - k] == s[k..n];
      WeightAdd(k, n - k);
      SplitStep(Value(s[k..n]), s[n], Weight(k), Weight(n - k));
    }
  }

  lemma SplitStep(v: int, x: int, low: int, high: int)
    ensures low * (v + x * high) == low * v + x * (low * high)
  {
  }

  lemma {:induction false} ValueZero(s: seq<Limb>)
    requires forall i | 0 <= i < |s| :: s[i] == 0
    ensures Value(s) == 0
    decreases |s|
  {
    if s != [] { ValueZero(s[..|s| - 1]); }
  }

  lemma {:induction false} ValueOnes(s: seq<Limb>)
    requires forall i | 0 <= i < |s| :: s[i] == BASE - 1
    ensures Value(s) == Weight(|s|) - 1
    decreases |s|
  {
    if s != [] {
      var n := |s| - 1;
      ValueOnes(s[..n]);
      WeightNext(n);
      assert (BASE - 1) * Weight(n) == BASE * Weight(n) - Weight(n);
    }
  }

  /** A limb above the others decides a comparison. */
  lemma ValueTop(s: seq<Limb>, t: seq<Limb>, k: nat)
    requires |s| == |t| && k < |s| && s[k] < t[k] && s[k + 1..] == t[k + 1..]
    ensures Value(s) < Value(t)
  {
    hide Value, Weight;
    ValueSplit(s, k + 1);
    ValueSplit(t, k + 1);
    ValuePush(s, k);
    ValuePush(t, k);
    ValueBound(s[..k]);
    OneMore(s[k], t[k], Weight(k));
  }

  // ----- bitwise or -----

  function Or(a: nat, b: nat): nat {
    if a == 0 then b
    else if b == 0 then a
    else 2 * Or(a / 2, b / 2) + if a % 2 == 1 || b % 2 == 1 then 1 else 0
  }

  /** Or of numbers without a common bit is their sum. */
  lemma {:induction false} OrDisjoint(a: nat, b: nat, k: nat)
    requires b < Pow2(k)
    ensures Or(a * Pow2(k), b) == a * Pow2(k) + b
    decreases k
  {
    if a * Pow2(k) != 0 && b != 0 {
      var half := a * Pow2(k - 1);
      assert a * Pow2(k) == 2 * half;
      OrDisjoint(a, b / 2, k - 1);
    }
  }

  lemma {:induction false} OrCommutes(a: nat, b: nat)
    ensures Or(a, b) == Or(b, a)
    decreases a
  {
    if a != 0 && b != 0 { OrCommutes(a / 2, b / 2); }
  }
}
