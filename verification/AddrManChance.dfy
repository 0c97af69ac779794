/** The chance with which Select takes an entry, over the real numbers, and why a search cannot reject for ever. */
module AddrManChance {
  import opened Prelude
  import opened AddrTypes

  function Power(x: real, n: nat): real {
    if n == 0 then 1.0 else x * Power(x, n - 1)
  }

  /** x to any power. */
  function Raised(x: real, n: int): real
    requires x > 0.0
  {
    if n >= 0 then Power(x, n) else PowerPositive(x, -n); 1.0 / Power(x, -n)
  }

  lemma {:induction false} PowerPositive(x: real, n: nat)
    requires x > 0.0
    ensures Power(x, n) > 0.0
  {
    if n > 0 {
      PowerPositive(x, n - 1);
      Product(x, Power(x, n - 1));
    }
  }

  lemma Product(x: real, y: real)
    requires x > 0.0 && y > 0.0
    ensures x * y > 0.0
  {
  }

  /** The chance of an entry: low after a recent try, and lower for every failed one up to the eighth. */
  function Chance(i: AddrInfo, now: int): real {
    (if now - i.lastTry < 10 * MINUTE then 0.01 else 1.0) * Raised(0.66, Min(i.attempts, 8))
  }

  /** What the chance is multiplied with after k entries were rejected. */
  function Factor(k: nat): real { Power(1.2, k) }

  /** A number of 30 random bits lets the entry through. */
  predicate LetsThrough(bits: nat, i: AddrInfo, now: int, k: nat) {
    bits as real < Factor(k) * Chance(i, now) * 1073741824.0
  }

  // ----- the chance is never too low -----

  lemma DecayBound(n: int)
    requires n <= 8
    ensures Raised(0.66, n) >= 0.036
  {
    if n < 0 {
      PowerPositive(0.66, -n);
      Shrinks(-n);
      Inverse(Power(0.66, -n));
    } else {
      EighthPower();
      Falls(n, 8);
    }
  }

  lemma EighthPower()
    ensures 0.036 <= Power(0.66, 8) <= 0.0361
  {
    var x := 0.66;
    assert Power(x, 2) == 0.4356;
    assert Power(x, 4) == 0.66 * (0.66 * Power(x, 2));
    assert Power(x, 6) == 0.66 * (0.66 * Power(x, 4));
    assert Power(x, 8) == 0.66 * (0.66 * Power(x, 6));
  }

  lemma {:induction false} Shrinks(n: nat)
    ensures 0.0 < Power(0.66, n) <= 1.0
  {
    if n > 0 { Shrinks(n - 1); }
  }

  lemma {:induction false} Falls(n: nat, m: nat)
    requires n <= m
    ensures Power(0.66, n) >= Power(0.66, m)
    decreases m
  {
    if n < m {
      Falls(n, m - 1);
      Shrinks(m - 1);
    }
  }

  lemma Inverse(x: real)
    requires 0.0 < x <= 1.0
    ensures 1.0 / x >= 1.0
  {
  }

  /** At most one part in a hundred for a recent try, and one in 28 for the failures. */
  lemma ChanceBound(i: AddrInfo, now: int)
    ensures Chance(i, now) >= 0.00036
  {
    DecayBound(Min(i.attempts, 8));
  }

  lemma {:induction false} FactorGrows(k: nat, n: nat)
    requires k <= n
    ensures 1.0 <= Power(1.2, k) <= Power(1.2, n)
    decreases n
  {
    if k < n {
      FactorGrows(k, n - 1);
    } else if k > 0 {
      FactorGrows(k - 1, k - 1);
    }
  }

  lemma {:induction false} PowerAdd(x: real, m: nat, n: nat)
    ensures Power(x, m + n) == Power(x, m) * Power(x, n)
    decreases m
  {
    if m > 0 {
      PowerAdd(x, m - 1, n);
      Groups(x, Power(x, m - 1), Power(x, n));
    }
  }

  lemma Groups(x: real, y: real, z: real)
    ensures x * (y * z) == (x * y) * z
  {
  }

  lemma Squared(n: nat, low: real)
    requires low >= 1.0 && Power(1.2, n) >= low
    ensures Power(1.2, n + n) >= low * low
  {
    PowerAdd(1.2, n, n);
    Larger(low, Power(1.2, n), low, Power(1.2, n));
  }

  lemma Larger(a: real, b: real, c: real, d: real)
    requires 0.0 <= a <= b && 0.0 <= c <= d
    ensures a * c <= b * d
  {
  }

  lemma FactorAt44()
    ensures Factor(44) >= 2900.0
  {
    assert Power(1.2, 4) >= 2.07;
    Squared(4, 2.07);
    Squared(8, 4.28);
    Squared(16, 18.3);
    PowerAdd(1.2, 32, 8);
    Larger(334.8, Power(1.2, 32), 4.28, Power(1.2, 8));
    PowerAdd(1.2, 40, 4);
    Larger(1432.0, Power(1.2, 40), 2.07, Power(1.2, 4));
  }

  /** After 44 rejections the next entry is taken, whatever the random bits. */
  lemma NoMoreRejections(bits: nat, i: AddrInfo, now: int, k: nat)
    requires bits < 0x4000_0000 && k >= 44
    ensures LetsThrough(bits, i, now, k)
  {
    hide Chance;
    ChanceBound(i, now);
    FactorAt44();
    FactorGrows(44, k);
    Larger(2900.0, Factor(k), 0.00036, Chance(i, now));
    assert Factor(k) * Chance(i, now) >= 1.0;
    AtLeastAll(Factor(k) * Chance(i, now));
  }

  lemma AtLeastAll(x: real)
    requires x >= 1.0
    ensures x * 1073741824.0 >= 1073741824.0
  {
  }

  /** 44 is exact: after 43 rejections an entry with eight failures that was just tried may be rejected once more. */
  lemma OneMoreRejection(i: AddrInfo, now: int)
    requires now - i.lastTry < 600 && i.attempts >= 8
    ensures !LetsThrough(0x3fff_ffff, i, now, 43)
  {
    hide Power;
    FactorAt43();
    EighthPower();
    PowerPositive(1.2, 43);
    PowerPositive(0.66, 8);
    Larger(0.0, 0.01, 0.0, Power(0.66, 8));
    Larger(Factor(43), 2560.0, Chance(i, now), 0.000361);
    assert Factor(43) * Chance(i, now) <= 0.93;
    AtMostPart(Factor(43) * Chance(i, now));
  }

  lemma AtMostPart(x: real)
    requires x <= 0.93
    ensures x * 1073741824.0 <= 999000000.0
  {
  }

  lemma SquaredBelow(n: nat, high: real)
    requires Power(1.2, n) <= high
    ensures Power(1.2, n + n) <= high * high
  {
    PowerAdd(1.2, n, n);
    PowerPositive(1.2, n);
    Larger(Power(1.2, n), high, Power(1.2, n), high);
  }

  lemma FactorAt43()
    ensures Factor(43) <= 2560.0
  {
    assert Power(1.2, 3) <= 1.73 && Power(1.2, 4) <= 2.074;
    SquaredBelow(4, 2.074);
    SquaredBelow(8, 4.302);
    SquaredBelow(16, 18.51);
    PowerAdd(1.2, 32, 8);
    PowerPositive(1.2, 32);
    PowerPositive(1.2, 8);
    Larger(Power(1.2, 32), 342.7, Power(1.2, 8), 4.302);
    PowerAdd(1.2, 40, 3);
    PowerPositive(1.2, 40);
    PowerPositive(1.2, 3);
    Larger(Power(1.2, 40), 1475.0, Power(1.2, 3), 1.73);
  }

  /** Each of the first eight failures leaves 66 percent of the chance; a try within ten minutes leaves one percent. */
  lemma ChanceRules(i: AddrInfo, now: int)
    ensures now - i.lastTry >= 600 && i.attempts == 0 ==> Chance(i, now) == 1.0
    ensures 0 <= i.attempts < 8 ==> Chance(i.(attempts := i.attempts + 1), now) == 0.66 * Chance(i, now)
    ensures i.attempts >= 8 ==> Chance(i.(attempts := i.attempts + 1), now) == Chance(i, now)
    ensures now - i.lastTry < 600 ==> Chance(i, now) == 0.01 * Chance(i.(lastTry := now - 600), now)
  {
    var r, n := if now - i.lastTry < 600 then 0.01 else 1.0, Min(i.attempts, 8);
    Groups(r, 0.66, Raised(0.66, n));
    Groups(0.66, r, Raised(0.66, n));
  }
}
