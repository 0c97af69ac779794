/** The few facts of integer arithmetic that the proofs rest on. */
module Numbers {

  function Pow2(k: nat): (r: int)
    ensures r >= 1
  {
    if k == 0 then 1 else 2 * Pow2(k - 1)
  }

  lemma {:induction false} Pow2Add(a: nat, b: nat)
    ensures Pow2(a + b) == Pow2(a) * Pow2(b)
  {
    if a > 0 {
      Pow2Add(a - 1, b);
      Doubled(Pow2(a - 1), Pow2(b));
    }
  }

  lemma Pow2Order(a: nat, b: nat)
    requires a <= b
    ensures Pow2(a) <= Pow2(b)
  {
    Pow2Add(a, b - a);
    MulOrder(1, Pow2(b - a), Pow2(a));
  }

  lemma MulOrder(a: int, b: int, c: int)
    requires a <= b && c >= 0
    ensures a * c <= b * c && c * a <= c * b
  {
    assert (b - a) * c >= 0;
  }

  lemma QuotientBounds(n: int, d: int)
    requires d > 0 && n >= 0
    ensures 0 <= n / d <= n
  {
    var q := n / d;
    assert n == d * q + n % d;
    if q < 0 {
      MulOrder(q, -1, d);
      assert false;
    }
    MulOrder(1, d, q);
  }

  /** Euclidean division has one answer. */
  lemma DivUnique(n: int, d: int, q: int, r: int)
    requires d > 0 && n == q * d + r && 0 <= r < d
    ensures n / d == q && n % d == r
  {
    var q', r' := n / d, n % d;
    assert n == q' * d + r';
    if q < q' {
      MulOrder(q + 1, q', d);
      assert false;
    } else if q > q' {
      MulOrder(q' + 1, q, d);
      assert false;
    }
  }

  /** Only the remainder of a summand matters to a sum's remainder. */
  lemma ModAdd(a: int, b: int, m: int)
    requires m > 0
    ensures (a % m + b) % m == (a + b) % m
  {
    var q, r := (a % m + b) / m, (a % m + b) % m;
    assert a == (a / m) * m + a % m;
    assert a % m + b == q * m + r;
    assert a + b == (a / m + q) * m + r;
    DivUnique(a + b, m, a / m + q, r);
  }

  lemma ModSmall(a: int, m: int)
    requires 0 <= a < m
    ensures a % m == a && a / m == 0
  {
    DivUnique(a, m, 0, a);
  }

  lemma ModUnique(a: int, b: int, m: int, k: int)
    requires m > 0 && a == b + k * m
    ensures a % m == b % m
  {
    var q, r := b / m, b % m;
    assert b == q * m + r;
    assert a == (q + k) * m + r;
    DivUnique(a, m, q + k, r);
  }

  function Pow(b: nat, n: nat): (r: int)
    requires b >= 1
    ensures r >= 1
  {
    if n == 0 then 1 else MulOrder(1, Pow(b, n - 1), b); b * Pow(b, n - 1)
  }

  lemma {:induction false} PowAdd(b: nat, m: nat, n: nat)
    requires b >= 1
    ensures Pow(b, m + n) == Pow(b, m) * Pow(b, n)
  {
    hide Pow;
    PowSteps(b, 0);
    if m == 0 {
      assert 1 * Pow(b, n) == Pow(b, n);
    } else {
      PowAdd(b, m - 1, n);
      calc {
        Pow(b, m + n);
        { PowSteps(b, m + n - 1); }
        b * Pow(b, m + n - 1);
        b * (Pow(b, m - 1) * Pow(b, n));
        { MulGroups(b, Pow(b, m - 1), Pow(b, n)); }
        (b * Pow(b, m - 1)) * Pow(b, n);
        { PowSteps(b, m - 1); }
        Pow(b, m) * Pow(b, n);
      }
    }
  }

  lemma Doubled(a: int, b: int)
    ensures (2 * a) * b == 2 * (a * b)
  {
  }

  lemma MulGroups(a: int, b: int, c: int)
    ensures a * (b * c) == (a * b) * c
  {
  }

  lemma PowSteps(b: nat, n: nat)
    requires b >= 1
    ensures Pow(b, 0) == 1 && Pow(b, n + 1) == b * Pow(b, n)
  {
  }

  lemma PowOrder(b: nat, m: nat, n: nat)
    requires b >= 1 && m <= n
    ensures Pow(b, m) <= Pow(b, n)
  {
    PowAdd(b, m, n - m);
    MulOrder(1, Pow(b, n - m), Pow(b, m));
  }

  lemma MulBoth(a: int, b: int, c: int, d: int)
    requires 0 <= a <= b && 0 <= c <= d
    ensures a * c <= b * d
  {
    MulOrder(a, b, c);
    MulOrder(c, d, b);
  }

  lemma AtMostQuotient(q: int, d: int, n: int)
    requires d > 0
    ensures n <= q / d <==> n * d <= q
  {
    assert q == (q / d) * d + q % d;
    if n <= q / d {
      MulOrder(n, q / d, d);
    } else {
      MulOrder(q / d + 1, n, d);
      assert (q / d + 1) * d == (q / d) * d + d;
    }
  }
}
