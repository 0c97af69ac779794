/** Unsigned integers of any number of 32-bit limbs, with the operators of base_uint. */
module ArithUint {
  import opened Limbs
  import opened Numbers

  const WORD64 := 0x1_0000_0000_0000_0000

  class BaseUint {
    const pn: array<Limb>

    constructor (width: nat)
      ensures fresh(pn) && pn.Length == width && V() == 0
    {
      pn := new Limb[width](_ => 0);
      new;
      ValueZero(pn[..]);
    }

    constructor Copy(b: BaseUint)
      ensures fresh(pn) && pn[..] == b.pn[..]
    {
      pn := new Limb[b.pn.Length](i requires 0 <= i < b.pn.Length reads b.pn => b.pn[i]);
    }

    ghost function V(): (v: int)
      reads pn
      ensures v >= 0
    {
      Value(pn[..])
    }

    /** Assignment of a 64-bit number. */
    method Assign(b: int)
      requires 0 <= b < WORD64 && pn.Length >= 2
      modifies pn
      ensures V() == b
    {
      pn[0], pn[1] := b % BASE, b / BASE;
      var i := 2;
      while i < pn.Length
        invariant 2 <= i <= pn.Length && pn[0] == b % BASE && pn[1] == b / BASE
        invariant forall k | 2 <= k < i :: pn[k] == 0
      {
        pn[i] := 0;
        i := i + 1;
      }
      LowLimbs(pn[..]);
      ValueZero(pn[2..]);
    }

    method Not() returns (r: BaseUint)
      ensures fresh(r) && fresh(r.pn) && r.pn.Length == pn.Length
      ensures r.V() == Weight(pn.Length) - 1 - V()
    {
      r := new BaseUint(pn.Length);
      var i := 0;
      while i < pn.Length
        invariant 0 <= i <= pn.Length
        invariant forall k | 0 <= k < i :: r.pn[k] == BASE - 1 - pn[k]
      {
        r.pn[i] := BASE - 1 - pn[i];
        i := i + 1;
      }
      Complement(pn[..], r.pn[..]);
    }

    method Negate() returns (r: BaseUint)
      ensures fresh(r) && fresh(r.pn) && r.pn.Length == pn.Length
      ensures r.V() == (-V()) % Weight(pn.Length)
    {
      r := Not();
      r.Increment();
      ModUnique(Weight(pn.Length) - V(), -V(), Weight(pn.Length), 1);
    }

    method Increment()
      modifies pn
      ensures V() == (old(V()) + 1) % Weight(pn.Length)
    {
      hide Value, Weight;
      ghost var x := pn[..];
      var i := 0;
      while i < pn.Length
        invariant 0 <= i <= pn.Length && forall k | i <= k < pn.Length :: pn[k] == x[k]
        invariant forall k | 0 <= k < i :: x[k] == BASE - 1 && pn[k] == 0
      {
        var up := (pn[i] as int + 1) % BASE;
        pn[i] := up;
        if up != 0 {
          CarriedOne(x, pn[..], i);
          return;
        }
        i := i + 1;
      }
      ValueOnes(x);
      ValueZero(pn[..]);
      DivUnique(Weight(pn.Length), Weight(pn.Length), 1, 0);
    }

    method Decrement()
      modifies pn
      ensures V() == (old(V()) - 1) % Weight(pn.Length)
    {
      hide Value, Weight;
      ghost var x := pn[..];
      var i := 0;
      while i < pn.Length
        invariant 0 <= i <= pn.Length && forall k | i <= k < pn.Length :: pn[k] == x[k]
        invariant forall k | 0 <= k < i :: x[k] == 0 && pn[k] == BASE - 1
      {
        var down := (pn[i] as int - 1) % BASE;
        pn[i] := down;
        if down != BASE - 1 {
          CarriedOne(pn[..], x, i);
          return;
        }
        i := i + 1;
      }
      ValueZero(x);
      ValueOnes(pn[..]);
      DivUnique(-1, Weight(pn.Length), -1, Weight(pn.Length) - 1);
    }

    method Add(b: BaseUint)
      requires b.pn.Length == pn.Length
      modifies pn
      ensures V() == (old(V()) + old(b.V())) % Weight(pn.Length)
    {
      ghost var x, y := pn[..], b.pn[..];
      var carry, i := 0, 0;
      while i < pn.Length
        invariant 0 <= i <= pn.Length && 0 <= carry <= 1
        invariant forall k | i <= k < pn.Length :: pn[k] == x[k] && b.pn[k] == y[k]
        invariant Value(pn[..i]) + carry * Weight(i) == Value(x[..i]) + Value(y[..i])
      {
        var n := carry + pn[i] as int + b.pn[i] as int;
        assert n < WORD64;
        ghost var low := pn[..i];
        pn[i] := n % BASE;
        assert pn[..i + 1][..i] == low;
        AddStep(x, y, low, pn[..i + 1], carry, n, i);
        carry := n / BASE;
        i := i + 1;
      }
      Whole(pn[..], i);
      Whole(x, i);
      Whole(y, i);
      ValueBound(pn[..]);
      DivUnique(Value(x) + Value(y), Weight(i), carry, V());
    }

    method Subtract(b: BaseUint)
      requires b.pn.Length == pn.Length
      modifies pn
      ensures V() == (old(V()) - old(b.V())) % Weight(pn.Length)
    {
      hide Value, Weight;
      var minus := b.Negate();
      ghost var x, y := V(), b.V();
      Add(minus);
      ModAdd(-y, x, Weight(pn.Length));
    }

    method MultiplyWord(b32: Limb)
      modifies pn
      ensures V() == (old(V()) * b32) % Weight(pn.Length)
    {
      ghost var x := pn[..];
      var carry, i := 0, 0;
      while i < pn.Length
        invariant 0 <= i <= pn.Length && 0 <= carry < BASE && forall k | i <= k < pn.Length :: pn[k] == x[k]
        invariant Value(pn[..i]) + carry * Weight(i) == Value(x[..i]) * b32
      {
        ProductFits(b32, pn[i]);
        var n := carry + b32 as int * pn[i] as int;
        assert n < WORD64;
        ghost var low := pn[..i];
        pn[i] := n % BASE;
        assert pn[..i + 1][..i] == low;
        MultiplyStep(x, low, pn[..i + 1], b32, carry, n, i);
        carry := n / BASE;
        i := i + 1;
      }
      Whole(pn[..], i);
      Whole(x, i);
      ValueBound(pn[..]);
      DivUnique(Value(x) * b32, Weight(i), carry, V());
    }

    method CompareTo(b: BaseUint) returns (c: int)
      requires b.pn.Length == pn.Length
      ensures c == if V() < b.V() then -1 else if V() > b.V() then 1 else 0
    {
      hide Value, Weight;
      var i := pn.Length - 1;
      while i >= 0
        invariant -1 <= i < pn.Length
        invariant forall k | i < k < pn.Length :: pn[k] == b.pn[k]
      {
        if pn[i] < b.pn[i] { TopDiffers(pn[..], b.pn[..], i); return -1; }
        if pn[i] > b.pn[i] { TopDiffers(b.pn[..], pn[..], i); return 1; }
        i := i - 1;
      }
      assert pn[..] == b.pn[..];
      return 0;
    }

    method EqualTo(b: int) returns (same: bool)
      requires 0 <= b < WORD64 && pn.Length >= 2
      ensures same == (V() == b)
    {
      hide Value;
      var i := pn.Length - 1;
      while i >= 2
        invariant 1 <= i < pn.Length && forall k | i < k < pn.Length :: pn[k] == 0
      {
        if pn[i] != 0 {
          HighLimb(pn[..], i);
          return false;
        }
        i := i - 1;
      }
      SmallValue(pn[..], b);
      if pn[1] != b / BASE { return false; }
      if pn[0] != b % BASE { return false; }
      return true;
    }

    /** One row of the schoolbook product: a += this.pn[j] * b * 2^(32 j), with the carry that drops out at the top. */
    method AddRow(b: BaseUint, a: BaseUint, j: nat, ghost x: seq<Limb>, ghost y: seq<Limb>) returns (ghost carry: int)
      requires b.pn.Length == pn.Length == a.pn.Length && j < pn.Length && a.pn != pn && a.pn != b.pn
      requires x == pn[..] && y == b.pn[..]
      modifies a.pn
      ensures a.V() + carry * Weight(|x|) == old(a.V()) + x[j] * (Weight(j) * Value(y[..|x| - j]))
    {
      hide Value, Weight;
      ghost var a0 := a.pn[..];
      var c, i := 0, 0;
      EmptyRow(a0, y, pn[j], j);
      while i + j < pn.Length
        invariant 0 <= i <= pn.Length - j && 0 <= c < BASE && forall k | i + j <= k < pn.Length :: a.pn[k] == a0[k]
        invariant Value(a.pn[..i + j]) + c * Weight(i + j) == Value(a0[..i + j]) + pn[j] * (Weight(j) * Value(y[..i]))
      {
        ProductFits(pn[j], b.pn[i]);
        var n := c + a.pn[i + j] as int + pn[j] as int * b.pn[i] as int;
        assert n < WORD64;
        ghost var low := a.pn[..i + j];
        a.pn[i + j] := n % BASE;
        assert a.pn[..i + j + 1][..i + j] == low;
        RowStep(a0, y, low, a.pn[..i + j + 1], pn[j], c, n, i, j);
        c := n / BASE;
        i := i + 1;
      }
      carry := c;
      Whole(a.pn[..], i + j);
      Whole(a0, i + j);
    }

    method Multiply(b: BaseUint)
      requires b.pn.Length == pn.Length
      modifies pn
      ensures V() == (old(V()) * old(b.V())) % Weight(pn.Length)
    {
      hide Value, Weight, PartialProduct;
      ghost var x, y := pn[..], b.pn[..];
      var a := new BaseUint(pn.Length);
      var j := 0;
      ghost var q := 0;
      EmptyProduct(x, y);
      while j < pn.Length
        invariant 0 <= j <= pn.Length && pn[..] == x && b.pn[..] == y
        invariant PartialProduct(x, y, a.V(), q, j)
      {
        ghost var before := a.V();
        ghost var carry := AddRow(b, a, j, x, y);
        q := RowEnd(x, y, before, a.V(), q, carry, j);
        j := j + 1;
      }
      ghost var r := a.pn[..];
      ProductDone(x, y, r, q);
      forall i | 0 <= i < pn.Length { pn[i] := a.pn[i]; }
      assert pn[..] == r;
    }

    method ShiftLeft(shift: nat)
      modifies pn
      ensures V() == (old(V()) * Pow2(shift)) % Weight(pn.Length)
    {
      hide Value, Weight, Pow2, Or, LeftSoFar, Upper, Lower;
      var a := new BaseUint.Copy(this);
      ghost var x := pn[..];
      forall i | 0 <= i < pn.Length { pn[i] := 0; }
      var k, rest := shift / 32, shift % 32;
      var i := 0;
      ghost var q := 0;
      LeftStart(x, pn[..], shift);
      while i < pn.Length
        invariant 0 <= i <= pn.Length && a.pn[..] == x && LeftSoFar(x, pn[..], shift, q, i)
      {
        ghost var r := pn[..];
        LeftLimbs(x, r, shift, q, i);
        if i + k + 1 < pn.Length && rest != 0 {
          pn[i + k + 1] := Or(pn[i + k + 1], Upper(a.pn[i], rest));
        }
        if i + k < pn.Length {
          pn[i + k] := Or(pn[i + k], Lower(a.pn[i], rest));
        }
        assert pn[..] == LeftWritten(x, r, shift, i);
        q := LeftStep(x, r, shift, q, i);
        i := i + 1;
      }
      LeftDone(x, pn[..], shift, q);
    }

    method ShiftRight(shift: nat)
      modifies pn
      ensures V() == old(V()) / Pow2(shift)
    {
      hide Value, Weight, Pow2, Or, RightSoFar, Upper, Lower;
      var a := new BaseUint.Copy(this);
      ghost var x := pn[..];
      forall i | 0 <= i < pn.Length { pn[i] := 0; }
      var k, rest := shift / 32, shift % 32;
      var i := 0;
      ghost var rem := 0;
      RightStart(x, pn[..], shift);
      while i < pn.Length
        invariant 0 <= i <= pn.Length && a.pn[..] == x && RightSoFar(x, pn[..], shift, rem, i)
      {
        ghost var r := pn[..];
        RightLimbs(x, r, shift, rem, i);
        if i - k - 1 >= 0 && rest != 0 {
          pn[i - k - 1] := Or(pn[i - k - 1], Lower(a.pn[i], 32 - rest));
        }
        if i - k >= 0 {
          pn[i - k] := Or(pn[i - k], Upper(a.pn[i], 32 - rest));
        }
        assert pn[..] == RightWritten(x, r, shift, i);
        rem := RightStep(x, r, shift, rem, i);
        i := i + 1;
      }
      RightDone(x, pn[..], shift, rem);
    }

    /** The number of significant bits. */
    method Bits() returns (n: nat)
      ensures n <= 32 * pn.Length
      ensures V() == 0 <==> n == 0
      ensures n > 0 ==> Pow2(n - 1) <= V() < Pow2(n)
    {
      hide Value, Weight, Pow2;
      var pos := pn.Length - 1;
      while pos >= 0
        invariant -1 <= pos < pn.Length && forall k | pos < k < pn.Length :: pn[k] == 0
      {
        if pn[pos] != 0 {
          Word();
          var nbits := 31;
          while nbits > 0
            invariant 0 <= nbits <= 31 && pn[pos] < Pow2(nbits + 1)
          {
            TestBit(pn[pos], nbits);
            if (pn[pos] / Pow2(nbits)) % 2 == 1 {
              TopBit(pn[..], pos, nbits);
              return 32 * pos + nbits + 1;
            }
            nbits := nbits - 1;
          }
          FirstPower();
          TopBit(pn[..], pos, 0);
          return 32 * pos + 1;
        }
        pos := pos - 1;
      }
      ValueZero(pn[..]);
      return 0;
    }

    /** Sets bit `shift`, which is clear and below which all bits are clear. */
    method SetBit(shift: nat)
      requires shift < 32 * pn.Length && V() % Pow2(shift + 1) == 0
      modifies pn
      ensures V() == old(V()) + Pow2(shift)
    {
      hide Value, Weight, Pow2, Or;
      var i, s := shift / 32, shift % 32;
      ClearBelow(pn[..], shift);
      ghost var x := pn[..];
      pn[i] := Or(pn[i], Pow2(s));
      assert pn[..] == x[i := x[i] as int + Pow2(s)];
      ValueSet(x, i, x[i] as int + Pow2(s));
      ShiftSplits(shift);
      assert Pow2(s) * Weight(i) == Weight(i) * Pow2(s);
    }

    /** Shift-and-subtract division; the remainder is what is left of num. */
    method Divide(b: BaseUint) returns (ok: bool, num: BaseUint)
      requires b.pn.Length == pn.Length >= 2
      modifies pn
      ensures fresh(num) && fresh(num.pn)
      ensures ok <==> old(b.V()) != 0
      ensures ok ==> V() == old(V()) / old(b.V()) && num.V() == old(V()) % old(b.V())
      ensures !ok ==> V() == 0
    {
      hide Value, Weight, Pow2, Dividing;
      ghost var n0, d0 := V(), b.V();
      var div := new BaseUint.Copy(b);
      num := new BaseUint.Copy(this);
      Assign(0);
      var numBits := num.Bits();
      var divBits := div.Bits();
      if divBits == 0 { return false, num; }
      ok := true;
      if divBits > numBits {
        SmallerBits(n0, d0, numBits, divBits);
        return;
      }
      var shift: int := numBits - divBits;
      div.ShiftLeft(shift);
      Aligned(n0, d0, numBits, divBits, pn.Length);
      DivisionStarts(n0, d0, shift);
      while shift >= 0
        invariant -1 <= shift < 32 * pn.Length && div.pn.Length == num.pn.Length == pn.Length
        invariant Dividing(n0, d0, V(), num.V(), shift)
        invariant shift >= 0 ==> div.V() == d0 * Pow2(shift)
      {
        DivideRound(num, div, shift, n0, d0);
        div.ShiftRight(1);
        if shift > 0 { HalfStep(d0, shift); }
        shift := shift - 1;
      }
      DivisionEnds(n0, d0, V(), num.V());
    }

    /** Subtracts the shifted divisor if it fits, and then sets the bit of the quotient. */
    method DivideRound(num: BaseUint, div: BaseUint, shift: nat, ghost n0: int, ghost d0: int)
      requires num.pn.Length == div.pn.Length == pn.Length && shift < 32 * pn.Length
      requires pn != num.pn && pn != div.pn && num.pn != div.pn
      requires div.V() == d0 * Pow2(shift) && Dividing(n0, d0, V(), num.V(), shift)
      modifies pn, num.pn
      ensures Dividing(n0, d0, V(), num.V(), shift - 1)
    {
      hide Value, Weight, Pow2, Dividing;
      ghost var q, r := V(), num.V();
      ValueBound(num.pn[..]);
      RoundSteps(n0, d0, q, r, shift, Weight(pn.Length));
      var c := num.CompareTo(div);
      if c >= 0 {
        num.Subtract(div);
        SetBit(shift);
      }
    }
  }

  // ----- facts behind the loops -----

  lemma Whole(s: seq<Limb>, n: nat)
    requires n == |s|
    ensures Value(s[..n]) == Value(s)
  {
    assert s[..n] == s;
  }

  lemma TopDiffers(s: seq<Limb>, t: seq<Limb>, i: nat)
    requires |s| == |t| && i < |s| && s[i] < t[i] && forall k | i < k < |s| :: s[k] == t[k]
    ensures Value(s) < Value(t)
  {
    hide Value;
    assert s[i + 1..] == t[i + 1..];
    ValueTop(s, t, i);
  }

  lemma LowLimbs(s: seq<Limb>)
    requires |s| >= 2
    ensures Value(s) == s[0] + s[1] * BASE + Weight(2) * Value(s[2..])
  {
    hide Weight;
    ValueSplit(s, 2);
    ValuePush(s, 1);
    ValuePush(s, 0);
    FirstWeight();
    WeightNext(0);
  }

  /** A number whose limbs from 2 on are zero. */
  lemma SmallValue(s: seq<Limb>, b: int)
    requires |s| >= 2 && 0 <= b < WORD64 && forall k | 2 <= k < |s| :: s[k] == 0
    ensures Value(s) == b <==> s[1] == b / BASE && s[0] == b % BASE
  {
    hide Value, Weight;
    LowLimbs(s);
    ValueZero(s[2..]);
    assert Weight(2) * 0 == 0;
  }

  lemma TwoLimbs(i: nat)
    requires i >= 2
    ensures Weight(i) >= WORD64
  {
    Pow2Order(64, 32 * i);
    Pow2Add(32, 32);
    Word();
  }

  lemma HighLimb(s: seq<Limb>, i: nat)
    requires 2 <= i < |s| && s[i] != 0
    ensures Value(s) >= WORD64
  {
    hide Value, Weight;
    ValueSplit(s, i + 1);
    ValuePush(s, i);
    MulOrder(0, Value(s[i + 1..]), Weight(i + 1));
    MulOrder(1, s[i], Weight(i));
    TwoLimbs(i);
  }

  lemma ComplementStep(x: int, y: int, w: int)
    requires y == BASE - 1 - x
    ensures y * w == w * BASE - w - x * w
  {
  }

  lemma {:induction false} Complement(s: seq<Limb>, t: seq<Limb>)
    requires |s| == |t| && forall k | 0 <= k < |s| :: t[k] == BASE - 1 - s[k]
    ensures Value(t) == Weight(|s|) - 1 - Value(s)
    decreases |s|
  {
    hide Weight;
    FirstWeight();
    if s != [] {
      var n := |s| - 1;
      Complement(s[..n], t[..n]);
      WeightNext(n);
      ComplementStep(s[n], t[n], Weight(n));
    }
  }

  /** y is x plus one: the limbs below i rolled over and limb i went up. */
  lemma CarriedOne(x: seq<Limb>, y: seq<Limb>, i: nat)
    requires |x| == |y| && i < |x| && y[i] as int == x[i] as int + 1 && x[i + 1..] == y[i + 1..]
    requires forall k | 0 <= k < i :: x[k] == BASE - 1 && y[k] == 0
    ensures Value(y) == Value(x) + 1
    ensures (Value(x) + 1) % Weight(|x|) == Value(y) && (Value(y) - 1) % Weight(|x|) == Value(x)
  {
    hide Value, Weight;
    ValueSplit(x, i + 1);
    ValueSplit(y, i + 1);
    ValuePush(x, i);
    ValuePush(y, i);
    ValueOnes(x[..i]);
    ValueZero(y[..i]);
    assert y[i] * Weight(i) == x[i] * Weight(i) + Weight(i);
    ValueBound(x);
    ValueBound(y);
    ModSmall(Value(y), Weight(|x|));
    ModSmall(Value(x), Weight(|x|));
  }

  lemma CarryStep(n: nat, w: nat)
    ensures (n % BASE) * w + (n / BASE) * (w * BASE) == n * w
  {
    assert n == (n / BASE) * BASE + n % BASE;
    assert (n / BASE) * (w * BASE) == ((n / BASE) * BASE) * w;
  }

  lemma AddStep(x: seq<Limb>, y: seq<Limb>, low: seq<Limb>, sum: seq<Limb>, carry: nat, n: nat, i: nat)
    requires |x| == |y| && i < |x| && |low| == i && |sum| == i + 1 && sum[..i] == low && sum[i] == n % BASE
    requires Value(low) + carry * Weight(i) == Value(x[..i]) + Value(y[..i]) && n == carry + x[i] as int + y[i] as int
    ensures Value(sum) + (n / BASE) * Weight(i + 1) == Value(x[..i + 1]) + Value(y[..i + 1])
  {
    hide Value, Weight;
    ValuePush(x, i);
    ValuePush(y, i);
    ValuePush(sum, i);
    assert sum[..i + 1] == sum;
    WeightNext(i);
    CarryStep(n, Weight(i));
    assert n * Weight(i) == carry * Weight(i) + x[i] * Weight(i) + y[i] * Weight(i);
  }

  lemma ProductFits(x: Limb, y: Limb)
    ensures 0 <= x as int * y as int <= (BASE - 1) * (BASE - 1)
  {
    MulOrder(x, BASE - 1, y);
    MulOrder(y, BASE - 1, BASE - 1);
    MulOrder(0, x, y);
  }

  lemma MultiplyStep(x: seq<Limb>, low: seq<Limb>, product: seq<Limb>, b: Limb, carry: nat, n: nat, i: nat)
    requires i < |x| && |low| == i && |product| == i + 1 && product[..i] == low && product[i] == n % BASE
    requires Value(low) + carry * Weight(i) == Value(x[..i]) * b && n == carry + b as int * x[i] as int
    ensures Value(product) + (n / BASE) * Weight(i + 1) == Value(x[..i + 1]) * b
  {
    hide Value, Weight;
    ValuePush(x, i);
    ValuePush(product, i);
    assert product[..i + 1] == product;
    WeightNext(i);
    CarryStep(n, Weight(i));
    MultiplyAlgebra(Value(x[..i]), Weight(i), x[i], b, carry, n);
  }

  lemma MultiplyAlgebra(v: int, w: int, d: int, c: int, carry: int, n: int)
    requires n == carry + c * d
    ensures n * w == carry * w + (c * d) * w && (v + d * w) * c == v * c + (c * d) * w
  {
  }

  // ----- multiplication -----

  lemma EmptyRow(a0: seq<Limb>, y: seq<Limb>, d: int, j: nat)
    requires j <= |a0|
    ensures Value(a0[..j]) + 0 * Weight(j) == Value(a0[..j]) + d * (Weight(j) * Value(y[..0]))
  {
  }

  /** v is the product of the first j limbs of x with y, up to a multiple of the modulus. */
  ghost predicate PartialProduct(x: seq<Limb>, y: seq<Limb>, v: int, q: int, j: nat) {
    j <= |x| && v + q * Weight(|x|) == Value(x[..j]) * Value(y)
  }

  lemma EmptyProduct(x: seq<Limb>, y: seq<Limb>)
    ensures PartialProduct(x, y, 0, 0, 0)
  {
  }

  lemma ProductDone(x: seq<Limb>, y: seq<Limb>, r: seq<Limb>, q: int)
    requires |r| == |x| && PartialProduct(x, y, Value(r), q, |x|)
    ensures Value(r) == (Value(x) * Value(y)) % Weight(|x|)
  {
    hide Value, Weight;
    Whole(x, |x|);
    ValueBound(r);
    DivUnique(Value(x) * Value(y), Weight(|x|), q, Value(r));
  }

  lemma RowStep(a0: seq<Limb>, y: seq<Limb>, low: seq<Limb>, row: seq<Limb>, d: int, c: nat, n: nat, i: nat, j: nat)
    requires i + j < |a0| && i < |y| && |low| == i + j && |row| == i + j + 1
    requires row[..i + j] == low && row[i + j] == n % BASE && n == c + a0[i + j] as int + d * y[i] as int
    requires Value(low) + c * Weight(i + j) == Value(a0[..i + j]) + d * (Weight(j) * Value(y[..i]))
    ensures Value(row) + (n / BASE) * Weight(i + j + 1) == Value(a0[..i + j + 1]) + d * (Weight(j) * Value(y[..i + 1]))
  {
    hide Value, Weight;
    ValuePush(a0, i + j);
    ValuePush(y, i);
    ValuePush(row, i + j);
    assert row[..i + j + 1] == row;
    WeightNext(i + j);
    WeightAdd(i, j);
    CarryStep(n, Weight(i + j));
    RowAlgebra(c, a0[i + j], d, y[i], Weight(i), Weight(j), Value(y[..i]), n);
  }

  lemma RowAlgebra(c: int, a: int, d: int, y: int, wi: int, wj: int, v: int, n: int)
    requires n == c + a + d * y
    ensures n * (wi * wj) == c * (wi * wj) + a * (wi * wj) + (d * (wj * (v + y * wi)) - d * (wj * v))
  {
    assert wj * (v + y * wi) == wj * v + y * (wi * wj);
    assert d * (wj * v + y * (wi * wj)) == d * (wj * v) + (d * y) * (wi * wj);
    assert n * (wi * wj) == c * (wi * wj) + a * (wi * wj) + (d * y) * (wi * wj);
  }

  /** The limbs of the second factor that a row leaves out only contribute multiples of the modulus. */
  lemma RowEnd(x: seq<Limb>, y: seq<Limb>, before: int, after: int, q: int, carry: int, j: nat) returns (q': int)
    requires |x| == |y| && j < |x|
    requires after + carry * Weight(|x|) == before + x[j] * (Weight(j) * Value(y[..|x| - j]))
    requires PartialProduct(x, y, before, q, j)
    ensures PartialProduct(x, y, after, q', j + 1)
  {
    hide Value, Weight;
    var n := |x|;
    ValueSplit(y, n - j);
    WeightAdd(j, n - j);
    ValuePush(x, j);
    var high, d: int := Value(y[n - j..]), x[j];
    q' := q + carry + d * high;
    DropHigh(d, Weight(j), Weight(n - j), Value(y[..n - j]), high);
    assert (q + carry + d * high) * Weight(n) == q * Weight(n) + carry * Weight(n) + (d * high) * Weight(n);
    assert (Value(x[..j]) + d * Weight(j)) * Value(y) == Value(x[..j]) * Value(y) + (d * Weight(j)) * Value(y);
  }

  lemma DropHigh(d: int, wj: int, wk: int, low: int, high: int)
    ensures (d * wj) * (low + wk * high) == d * (wj * low) + (d * high) * (wj * wk)
  {
    assert (d * wj) * (low + wk * high) == (d * wj) * low + (d * wj) * (wk * high);
    assert (d * wj) * low == d * (wj * low);
    assert (d * wj) * (wk * high) == (d * high) * (wj * wk);
  }

  // ----- shifts -----

  /** The bits of a limb that a shift by s moves to the next limb, and the limb that stays. */
  function Upper(x: Limb, s: nat): nat
    requires s <= 32
  {
    QuotientBounds(x, Pow2(32 - s));
    x / Pow2(32 - s)
  }

  function Lower(x: Limb, s: nat): nat {
    (x as int * Pow2(s)) % BASE
  }

  lemma LimbShift(x: Limb, s: nat)
    requires s <= 32
    ensures 0 <= Upper(x, s) < Pow2(s)
    ensures x % Pow2(32 - s) >= 0 && Lower(x, s) == (x % Pow2(32 - s)) * Pow2(s) <= BASE - Pow2(s)
    ensures Upper(x, s) * BASE + Lower(x, s) == x * Pow2(s)
  {
    hide Pow2;
    var p, t := Pow2(32 - s), Pow2(s);
    var h, l := x as int / p, x as int % p;
    Pow2Add(32 - s, s);
    Word();
    assert x as int == h * p + l;
    assert x as int * t == (h * p + l) * t;
    assert (h * p + l) * t == h * (p * t) + l * t;
    OneMore(l, p, t);
    MulOrder(0, l, t);
    DivUnique(x as int * t, BASE, h, l * t);
    HighPart(x, h, l, p, t);
  }

  lemma HighPart(x: Limb, h: int, l: int, p: int, t: int)
    requires p > 0 && t > 0 && p * t == BASE && x as int == h * p + l && 0 <= l < p
    ensures 0 <= h < t
  {
    if h >= t {
      MulOrder(t, h, p);
      assert false;
    }
    if h < 0 {
      MulOrder(h, -1, p);
      assert false;
    }
  }

  /** Or of a limb's low bits with a multiple of their power. */
  lemma OrLow(low: nat, h: nat, s: nat)
    requires low < Pow2(s)
    ensures h * Pow2(s) >= 0 && Or(low, h * Pow2(s)) == low + h * Pow2(s)
  {
    hide Pow2, Or;
    MulOrder(0, h, Pow2(s));
    OrDisjoint(h, low, s);
    OrCommutes(low, h * Pow2(s));
  }

  /** r is x[..i] shifted left, up to a multiple of the modulus; the limbs still to be written are clear. */
  ghost predicate LeftSoFar(x: seq<Limb>, r: seq<Limb>, shift: nat, q: int, i: nat) {
    && |r| == |x| && i <= |x|
    && Value(r) + q * Weight(|x|) == Value(x[..i]) * Pow2(shift)
    && (forall m | i + shift / 32 < m < |r| :: r[m] == 0)
    && (i + shift / 32 < |r| ==> r[i + shift / 32] < Pow2(shift % 32))
  }

  lemma LeftStart(x: seq<Limb>, r: seq<Limb>, shift: nat)
    requires |r| == |x| && forall m | 0 <= m < |r| :: r[m] == 0
    ensures LeftSoFar(x, r, shift, 0, 0)
  {
    hide Pow2;
    ValueZero(r);
  }

  lemma LeftDone(x: seq<Limb>, r: seq<Limb>, shift: nat, q: int)
    requires LeftSoFar(x, r, shift, q, |x|)
    ensures Value(r) == (Value(x) * Pow2(shift)) % Weight(|x|)
  {
    hide Value, Weight, Pow2;
    Whole(x, |x|);
    ValueBound(r);
    DivUnique(Value(x) * Pow2(shift), Weight(|x|), q, Value(r));
  }

  /** The two limbs that step i writes, as sums. */
  lemma LeftLimbs(x: seq<Limb>, r: seq<Limb>, shift: nat, q: int, i: nat)
    requires LeftSoFar(x, r, shift, q, i) && i < |x|
    ensures var k, s := shift / 32, shift % 32;
            var hi, lo := Upper(x[i], s), Lower(x[i], s);
            && 0 <= hi < Pow2(s) && hi * BASE + lo == x[i] * Pow2(s) && hi < BASE
            && (i + k + 1 < |r| ==> Or(r[i + k + 1], hi) == hi)
            && (i + k < |r| ==> 0 <= r[i + k] + lo < BASE && Or(r[i + k], lo) == r[i + k] as int + lo)
  {
    hide Pow2, Value, Weight, Upper, Lower;
    var k, s := shift / 32, shift % 32;
    LimbShift(x[i], s);
    Pow2Order(s, 32);
    Word();
    if i + k < |r| {
      assert x[i] % Pow2(32 - s) >= 0;
      OrLow(r[i + k], x[i] % Pow2(32 - s), s);
    }
  }

  /** The limbs after step i. */
  ghost function LeftWritten(x: seq<Limb>, r: seq<Limb>, shift: nat, i: nat): (r': seq<Limb>)
    requires i < |x| == |r| && LeftWritable(x, r, shift, i)
    ensures |r'| == |r|
  {
    var k, s := shift / 32, shift % 32;
    var high := if i + k + 1 < |r| && s != 0 then r[i + k + 1 := Upper(x[i], s)] else r;
    if i + k < |r| then high[i + k := r[i + k] as int + Lower(x[i], s)] else high
  }

  ghost predicate LeftWritable(x: seq<Limb>, r: seq<Limb>, shift: nat, i: nat)
    requires i < |x| == |r|
  {
    && 0 <= Upper(x[i], shift % 32) < BASE
    && (i + shift / 32 < |r| ==> 0 <= r[i + shift / 32] as int + Lower(x[i], shift % 32) < BASE)
  }

  /** A product, named where its factors do not matter. */
  function Times(a: int, b: int): int { a * b }

  /** Limb i of the number contributes its two parts, one limb apart. */
  lemma LeftParts(d: int, hi: int, lo: int, shift: nat, i: nat)
    requires hi * BASE + lo == d * Pow2(shift % 32)
    ensures Times(Times(d, Weight(i)), Pow2(shift)) ==
            Times(hi, Weight(i + shift / 32 + 1)) + Times(lo, Weight(i + shift / 32))
  {
    hide Pow2, Weight;
    var k, s := shift / 32, shift % 32;
    ShiftSplits(shift);
    WeightAdd(i, k);
    WeightNext(i + k);
    var p := Pow2(s);
    LeftAlgebra(d, hi, lo, p, Weight(i), Weight(k));
  }

  lemma LeftAlgebra(d: int, hi: int, lo: int, p: int, wi: int, wk: int)
    requires hi * BASE + lo == d * p
    ensures d * wi * (wk * p) == hi * (wi * wk * BASE) + lo * (wi * wk)
  {
    var w := wi * wk;
    assert d * wi * (wk * p) == (d * p) * w;
    assert (hi * BASE + lo) * w == hi * (w * BASE) + lo * w;
  }

  /** A part that falls off the top is a multiple of the modulus. */
  lemma OffTheTop(d: int, m: nat, n: nat) returns (q: int)
    requires m >= n
    ensures q * Weight(n) == d * Weight(m)
  {
    WeightAdd(n, m - n);
    q := d * Weight(m - n);
    assert d * (Weight(n) * Weight(m - n)) == (d * Weight(m - n)) * Weight(n);
  }

  /** What writing a part adds, and what it drops. */
  lemma PartAdds(s: seq<Limb>, m: nat, d: int, t: seq<Limb>) returns (dropped: int)
    requires if m < |s| then 0 <= s[m] as int + d < BASE && t == s[m := s[m] as int + d] else t == s
    ensures Value(t) + Times(dropped, Weight(|s|)) == Value(s) + Times(d, Weight(m))
  {
    hide Value, Weight;
    if m < |s| {
      AddLimb(s, m, d);
      dropped := 0;
    } else {
      dropped := OffTheTop(d, m, |s|);
    }
  }

  lemma AddLimb(s: seq<Limb>, m: nat, d: int)
    requires m < |s| && 0 <= s[m] as int + d < BASE
    ensures Value(s[m := s[m] as int + d]) == Value(s) + Times(d, Weight(m))
  {
    hide Value, Weight;
    ValueSet(s, m, s[m] as int + d);
  }

  lemma PushLimb(s: seq<Limb>, i: nat)
    requires i < |s|
    ensures Value(s[..i + 1]) == Value(s[..i]) + Times(s[i], Weight(i))
  {
    hide Value, Weight;
    ValuePush(s, i);
  }

  lemma LeftStep(x: seq<Limb>, r: seq<Limb>, shift: nat, q: int, i: nat) returns (q': int)
    requires LeftSoFar(x, r, shift, q, i) && i < |x| == |r| && LeftWritable(x, r, shift, i)
    ensures LeftSoFar(x, LeftWritten(x, r, shift, i), shift, q', i + 1)
  {
    hide Value, Weight, Pow2, LeftWritten, Upper, Lower;
    q' := LeftValue(x, r, shift, q, i);
    LeftClear(x, r, shift, q, i);
  }

  /** The limbs above the two written ones stay clear, and the upper one holds only what was shifted into it. */
  lemma LeftClear(x: seq<Limb>, r: seq<Limb>, shift: nat, q: int, i: nat)
    requires LeftSoFar(x, r, shift, q, i) && i < |x| == |r| && LeftWritable(x, r, shift, i)
    ensures var w, k := LeftWritten(x, r, shift, i), shift / 32;
            && (forall m | i + 1 + k < m < |r| :: w[m] == 0)
            && (i + 1 + k < |r| ==> w[i + 1 + k] < Pow2(shift % 32))
  {
    hide Value, Weight, Pow2, Upper, Lower;
    LeftLimbs(x, r, shift, q, i);
  }

  lemma LeftValue(x: seq<Limb>, r: seq<Limb>, shift: nat, q: int, i: nat) returns (q': int)
    requires LeftSoFar(x, r, shift, q, i) && i < |x| == |r| && LeftWritable(x, r, shift, i)
    ensures Value(LeftWritten(x, r, shift, i)) + Times(q', Weight(|x|)) == Times(Value(x[..i + 1]), Pow2(shift))
  {
    hide Value, Weight, Pow2, Upper, Lower, Times, LeftSoFar, LeftWritable;
    LeftLinear(x, r, shift, q, i);
    var k, s := shift / 32, shift % 32;
    var hi, lo := Upper(x[i], s), Lower(x[i], s);
    LeftLimbs(x, r, shift, q, i);
    NoShift(s, hi);
    var high := if i + k + 1 < |r| && s != 0 then r[i + k + 1 := hi] else r;
    assert i + k + 1 < |r| ==> high == r[i + k + 1 := r[i + k + 1] as int + hi];
    var written := LeftWritten(x, r, shift, i);
    var d1 := PartAdds(r, i + k + 1, hi, high);
    var d2 := PartAdds(high, i + k, lo, written);
    LeftParts(x[i], hi, lo, shift, i);
    PushLimb(x, i);
    q' := q + d1 + d2;
    LeftSum(q, d1, d2, Weight(|x|), Value(x[..i]), Times(x[i], Weight(i)), Pow2(shift), Value(r), Value(high),
      Value(written), Times(hi, Weight(i + k + 1)), Times(lo, Weight(i + k)));
  }

  lemma NoShift(s: nat, hi: int)
    requires 0 <= hi < Pow2(s)
    ensures s == 0 ==> hi == 0
  {
  }

  /** The facts about step i in which the products are only named. */
  lemma LeftLinear(x: seq<Limb>, r: seq<Limb>, shift: nat, q: int, i: nat)
    requires LeftSoFar(x, r, shift, q, i) && i < |x| == |r| && LeftWritable(x, r, shift, i)
    ensures Value(r) + Times(q, Weight(|x|)) == Times(Value(x[..i]), Pow2(shift))
    ensures var k := shift / 32; i + k + 1 < |r| ==> r[i + k + 1] == 0
    ensures LeftWritable(x, r, shift, i)
  {
    hide Value, Weight, Pow2, Upper, Lower;
  }

  lemma LeftSum(
    q: int, d1: int, d2: int, w: int, v: int, more: int, p: int, r: int, high: int, written: int, top: int, low: int)
    requires r + Times(q, w) == Times(v, p) && high + Times(d1, w) == r + top && written + Times(d2, w) == high + low
    requires Times(more, p) == top + low
    ensures written + Times(q + d1 + d2, w) == Times(v + more, p)
  {
    assert (q + d1 + d2) * w == q * w + d1 * w + d2 * w;
    assert (v + more) * p == v * p + more * p;
  }

  /** r is x[..i] shifted right and rem what was shifted out; the limbs still to be written are clear. */
  ghost predicate RightSoFar(x: seq<Limb>, r: seq<Limb>, shift: nat, rem: int, i: nat) {
    && |r| == |x| && i <= |x| && 0 <= rem < Pow2(shift)
    && Value(r) * Pow2(shift) + rem == Value(x[..i])
    && (forall m | 0 <= m < |r| && m >= i - shift / 32 :: r[m] == 0)
    && (i - shift / 32 - 1 >= 0 ==> r[i - shift / 32 - 1] < Pow2(32 - shift % 32))
  }

  lemma RightStart(x: seq<Limb>, r: seq<Limb>, shift: nat)
    requires |r| == |x| && forall m | 0 <= m < |r| :: r[m] == 0
    ensures RightSoFar(x, r, shift, 0, 0)
  {
    hide Pow2;
    ValueZero(r);
  }

  lemma RightDone(x: seq<Limb>, r: seq<Limb>, shift: nat, rem: int)
    requires RightSoFar(x, r, shift, rem, |x|)
    ensures Value(r) == Value(x) / Pow2(shift)
  {
    hide Value, Weight, Pow2;
    Whole(x, |x|);
    DivUnique(Value(x), Pow2(shift), Value(r), rem);
  }

  lemma RightLimbs(x: seq<Limb>, r: seq<Limb>, shift: nat, rem: int, i: nat)
    requires RightSoFar(x, r, shift, rem, i) && i < |x|
    ensures var k, s := shift / 32, shift % 32;
            var hi, lo := Upper(x[i], 32 - s), Lower(x[i], 32 - s);
            && 0 <= hi < Pow2(32 - s) && hi * BASE + lo == x[i] * Pow2(32 - s) && hi < BASE
            && (i - k >= 0 ==> Or(r[i - k], hi) == hi)
            && (i - k - 1 >= 0 ==> 0 <= r[i - k - 1] + lo < BASE && Or(r[i - k - 1], lo) == r[i - k - 1] as int + lo)
  {
    hide Pow2, Value, Weight, Upper, Lower;
    var k, s := shift / 32, shift % 32;
    LimbShift(x[i], 32 - s);
    Pow2Order(32 - s, 32);
    Word();
    if i - k - 1 >= 0 {
      assert x[i] % Pow2(s) >= 0;
      OrLow(r[i - k - 1], x[i] % Pow2(s), 32 - s);
    }
  }

  ghost function RightWritten(x: seq<Limb>, r: seq<Limb>, shift: nat, i: nat): (r': seq<Limb>)
    requires i < |x| == |r| && RightWritable(x, r, shift, i)
    ensures |r'| == |r|
  {
    var k, s := shift / 32, shift % 32;
    if i - k - 1 >= 0 then TwoWritten(r, i - k - 1, Lower(x[i], 32 - s), Upper(x[i], 32 - s), s != 0)
    else if i - k == 0 then r[0 := Upper(x[i], 32 - s)]
    else r
  }

  /** Two limbs side by side: the lower one added to if `both`, the upper one set. */
  ghost function TwoWritten(r: seq<Limb>, p: nat, lo: int, hi: int, both: bool): (r': seq<Limb>)
    requires p + 1 < |r| && 0 <= r[p] as int + lo < BASE && 0 <= hi < BASE
    ensures |r'| == |r|
  {
    var low := if both then r[p := r[p] as int + lo] else r;
    low[p + 1 := hi]
  }

  ghost predicate RightWritable(x: seq<Limb>, r: seq<Limb>, shift: nat, i: nat)
    requires i < |x| == |r|
  {
    var k, s := shift / 32, shift % 32;
    && 0 <= Upper(x[i], 32 - s) < BASE
    && (i - k - 1 >= 0 ==> 0 <= r[i - k - 1] as int + Lower(x[i], 32 - s) < BASE)
  }

  /** Limb i of the number, above the shift, contributes its two parts exactly. */
  lemma RightParts(d: int, hi: int, lo: int, shift: nat, i: nat)
    requires hi * BASE + lo == d * Pow2(32 - shift % 32) && i > shift / 32
    ensures Times(Times(lo, Weight(i - shift / 32 - 1)) + Times(hi, Weight(i - shift / 32)), Pow2(shift)) ==
            Times(d, Weight(i))
  {
    hide Pow2, Weight;
    var k, s := shift / 32, shift % 32;
    ShiftSplits(shift);
    Pow2Add(32 - s, s);
    Word();
    WeightNext(i - k - 1);
    WeightAdd(i - k, k);
    RightAlgebra(d, hi, lo, Pow2(32 - s), Pow2(s), Weight(i - k - 1), Weight(k));
  }

  lemma RightAlgebra(d: int, hi: int, lo: int, p: int, t: int, w: int, wk: int)
    requires hi * BASE + lo == d * p && p * t == BASE
    ensures (lo * w + hi * (w * BASE)) * (wk * t) == d * (w * BASE * wk)
  {
    assert lo * w + hi * (w * BASE) == (hi * BASE + lo) * w;
    assert (d * p) * w * (wk * t) == d * ((w * (p * t)) * wk);
  }

  lemma RightStep(x: seq<Limb>, r: seq<Limb>, shift: nat, rem: int, i: nat) returns (rem': int)
    requires RightSoFar(x, r, shift, rem, i) && i < |x| == |r| && RightWritable(x, r, shift, i)
    ensures RightSoFar(x, RightWritten(x, r, shift, i), shift, rem', i + 1)
  {
    hide Value, Weight, Pow2, Upper, Lower;
    var k := shift / 32;
    RightLimbs(x, r, shift, rem, i);
    ValuePush(x, i);
    if i > k {
      rem' := rem;
      RightAbove(x, r, shift, rem, i);
    } else {
      ValueZero(r);
      rem' := rem + if i == k then (x[i] % Pow2(shift % 32)) * Weight(i) else x[i] * Weight(i);
      RightBelow(x, r, shift, rem, i);
    }
  }

  lemma RightAbove(x: seq<Limb>, r: seq<Limb>, shift: nat, rem: int, i: nat)
    requires RightSoFar(x, r, shift, rem, i) && shift / 32 < i < |x| == |r| && RightWritable(x, r, shift, i)
    ensures Value(RightWritten(x, r, shift, i)) * Pow2(shift) + rem == Value(x[..i]) + x[i] * Weight(i)
  {
    hide Value, Weight, Pow2, Upper, Lower;
    var k, s := shift / 32, shift % 32;
    var hi, lo := Upper(x[i], 32 - s), Lower(x[i], 32 - s);
    RightLimbs(x, r, shift, rem, i);
    var written := RightWritten(x, r, shift, i);
    RightAdds(x, r, shift, i, hi, lo);
    RightParts(x[i], hi, lo, shift, i);
    RightSum(Value(r), Times(lo, Weight(i - k - 1)) + Times(hi, Weight(i - k)), Pow2(shift), Value(written), rem,
      Value(x[..i]), Times(x[i], Weight(i)));
  }

  /** What the two written limbs add. */
  lemma RightAdds(x: seq<Limb>, r: seq<Limb>, shift: nat, i: nat, hi: int, lo: int)
    requires shift / 32 < i < |x| == |r| && RightWritable(x, r, shift, i) && r[i - shift / 32] == 0
    requires hi == Upper(x[i], 32 - shift % 32) && lo == Lower(x[i], 32 - shift % 32)
    ensures Value(RightWritten(x, r, shift, i)) ==
            Value(r) + (Times(lo, Weight(i - shift / 32 - 1)) + Times(hi, Weight(i - shift / 32)))
  {
    hide Value, Weight, Pow2, Upper, Lower, Times, TwoWritten;
    var k, s := shift / 32, shift % 32;
    NoLow(x[i], s);
    WriteTwo(r, i - k - 1, lo, hi, s != 0);
  }

  lemma WriteTwo(r: seq<Limb>, p: nat, lo: int, hi: int, both: bool)
    requires p + 1 < |r| && 0 <= r[p] as int + lo < BASE && 0 <= hi < BASE && r[p + 1] == 0 && (!both ==> lo == 0)
    ensures Value(TwoWritten(r, p, lo, hi, both)) == Value(r) + (Times(lo, Weight(p)) + Times(hi, Weight(p + 1)))
  {
    hide Value, Weight, Times;
    var low := if both then r[p := r[p] as int + lo] else r;
    assert low == r[p := r[p] as int + lo];
    AddLimb(r, p, lo);
    AddLimb(low, p + 1, hi);
    assert low[p + 1 := low[p + 1] as int + hi] == low[p + 1 := hi];
  }

  lemma NoLow(x: Limb, s: nat)
    requires s <= 32
    ensures s == 0 ==> Lower(x, 32 - s) == 0
  {
    if s == 0 {
      Word();
      DivUnique(x as int * BASE, BASE, x, 0);
    }
  }

  lemma RightSum(v: int, more: int, p: int, written: int, rem: int, old': int, limb: int)
    requires written == v + more && v * p + rem == old' && Times(more, p) == limb
    ensures written * p + rem == old' + limb
  {
    assert (v + more) * p == v * p + more * p;
  }

  lemma RightBelow(x: seq<Limb>, r: seq<Limb>, shift: nat, rem: int, i: nat)
    requires RightSoFar(x, r, shift, rem, i) && i < |x| == |r| && i <= shift / 32 && RightWritable(x, r, shift, i)
    requires Value(r) == 0
    ensures var rem' := rem + if i == shift / 32 then (x[i] % Pow2(shift % 32)) * Weight(i) else x[i] * Weight(i);
            && 0 <= rem' < Pow2(shift)
            && Value(RightWritten(x, r, shift, i)) * Pow2(shift) + rem' == Value(x[..i]) + x[i] * Weight(i)
  {
    hide Value, Weight, Pow2;
    var k, s := shift / 32, shift % 32;
    assert 0 * Pow2(shift) == 0;
    assert rem == Value(x[..i]);
    ValueBound(x[..i]);
    if i == k {
      var hi, m: int := x[i] / Pow2(s), x[i] % Pow2(s);
      assert r[0] == 0;
      ValueSet(r, 0, hi);
      FirstWeight();
      ShiftSplits(shift);
      BoundaryLimb(x[i], hi, m, Pow2(s), Weight(k), rem);
    } else {
      ValuePush(x, i);
      ValueBound(x[..i + 1]);
      WeightBelow(i + 1, shift);
    }
  }

  lemma ShiftSplits(shift: nat)
    ensures Pow2(shift) == Weight(shift / 32) * Pow2(shift % 32)
  {
    Pow2Add(32 * (shift / 32), shift % 32);
  }

  lemma WeightBelow(i: nat, shift: nat)
    requires i <= shift / 32
    ensures Weight(i) <= Pow2(shift)
  {
    Pow2Order(32 * i, shift);
  }

  lemma BoundaryLimb(d: int, hi: int, m: int, p: int, w: int, v: int)
    requires p > 0 && w > 0 && d == hi * p + m && 0 <= m < p && 0 <= v < w
    ensures 0 <= v + m * w < w * p
    ensures hi * (w * p) + (v + m * w) == v + d * w
  {
    OneMore(m, p, w);
    MulOrder(0, m, w);
    assert (hi * p + m) * w == hi * (w * p) + m * w;
  }

  // ----- division -----

  lemma FirstPower()
    ensures Pow2(0) == 1 && Pow2(1) == 2
  {
  }

  lemma TestBit(x: Limb, k: nat)
    requires x < Pow2(k + 1)
    ensures (x / Pow2(k)) % 2 == 1 <==> x >= Pow2(k)
  {
    var p := Pow2(k);
    assert Pow2(k + 1) == 2 * p;
    if x >= p {
      DivUnique(x, p, 1, x as int - p);
    } else {
      ModSmall(x, p);
    }
  }

  lemma LimbBit(pos: nat, k: nat)
    ensures Pow2(32 * pos + k) == Pow2(k) * Weight(pos)
  {
    Pow2Add(32 * pos, k);
  }

  lemma TopBit(s: seq<Limb>, pos: nat, k: nat)
    requires pos < |s| && k < 32 && Pow2(k) <= s[pos] < Pow2(k + 1) && forall i | pos < i < |s| :: s[i] == 0
    ensures Pow2(32 * pos + k) <= Value(s) < Pow2(32 * pos + k + 1)
  {
    hide Value, Pow2, Weight;
    ValueSplit(s, pos + 1);
    ValuePush(s, pos);
    ValueZero(s[pos + 1..]);
    assert Weight(pos + 1) * 0 == 0;
    ValueBound(s[..pos]);
    LimbBit(pos, k);
    LimbBit(pos, k + 1);
    MulOrder(Pow2(k), s[pos], Weight(pos));
    OneMore(s[pos], Pow2(k + 1), Weight(pos));
  }

  /** A multiple of 2^(shift + 1) has the limb of bit `shift` clear up to that bit. */
  lemma ClearBelow(s: seq<Limb>, shift: nat)
    requires shift < 32 * |s| && Value(s) % Pow2(shift + 1) == 0
    ensures var i, t := shift / 32, shift % 32;
            0 <= s[i] as int + Pow2(t) < BASE && Or(s[i], Pow2(t)) == s[i] as int + Pow2(t)
  {
    hide Value, Pow2, Weight, Or;
    var i, t := shift / 32, shift % 32;
    var p, w := Pow2(t + 1), Weight(i);
    ValueSplit(s, i + 1);
    ValuePush(s, i);
    ValueBound(s[..i]);
    WeightNext(i);
    Pow2Add(t + 1, 31 - t);
    Word();
    BitSplits(shift);
    LowIsZero(Value(s), Value(s[..i]), s[i], Value(s[i + 1..]), w, p, Pow2(31 - t));
    HalfPower(t);
    ClearLimb(s[i], t);
  }

  lemma BitSplits(shift: nat)
    ensures Pow2(shift + 1) == Weight(shift / 32) * Pow2(shift % 32 + 1)
  {
    Pow2Add(32 * (shift / 32), shift % 32 + 1);
  }

  lemma HalfPower(t: nat)
    ensures Pow2(t + 1) == 2 * Pow2(t)
  {
  }

  lemma LowIsZero(v: int, low: int, d: int, high: int, w: int, p: int, rest: int)
    requires w > 0 && p > 0 && v == low + d * w + (w * BASE) * high && p * rest == BASE && 0 <= low < w && d >= 0
    requires v % (w * p) == 0
    ensures d % p == 0
  {
    var q := v / (w * p);
    assert v == (w * p) * q;
    var e := p * q - d - BASE * high;
    assert w * e == (w * p) * q - d * w - (w * BASE) * high;
    assert low == w * e;
    if e > 0 {
      MulOrder(1, e, w);
      assert false;
    } else if e < 0 {
      MulOrder(e, -1, w);
      assert false;
    }
    assert d == p * q - (p * rest) * high;
    assert (p * rest) * high == p * (rest * high);
    assert d == (q - rest * high) * p + 0;
    DivUnique(d, p, q - rest * high, 0);
  }

  lemma ClearLimb(x: Limb, t: nat)
    requires t < 32 && x % Pow2(t + 1) == 0
    ensures 0 <= x as int + Pow2(t) < BASE && Or(x, Pow2(t)) == x as int + Pow2(t)
  {
    hide Pow2, Or;
    var p := Pow2(t + 1);
    HalfPower(t);
    var h := x as int / p;
    assert x as int == h * p;
    Pow2Add(t + 1, 31 - t);
    Word();
    LastMultiple(h, p, Pow2(31 - t), x);
    OrDisjoint(h, Pow2(t), t + 1);
  }

  lemma LastMultiple(h: int, p: int, n: int, x: int)
    requires p > 0 && x == h * p && p * n == BASE && 0 <= x < BASE
    ensures x <= BASE - p && h >= 0
  {
    if h >= n {
      MulOrder(n, h, p);
      assert false;
    }
    OneMore(h, n, p);
    if h < 0 {
      MulOrder(h, -1, p);
      assert false;
    }
  }

  lemma SmallerBits(n0: int, d0: int, numBits: nat, divBits: nat)
    requires n0 >= 0 && divBits > numBits && Pow2(divBits - 1) <= d0
    requires n0 == 0 || (numBits > 0 && n0 < Pow2(numBits))
    ensures n0 / d0 == 0 && n0 % d0 == n0
  {
    Pow2Order(numBits, divBits - 1);
    ModSmall(n0, d0);
  }

  /** After the first shift the divisor is aligned with the number, and nothing was shifted out. */
  lemma Aligned(n0: int, d0: int, numBits: nat, divBits: nat, width: nat)
    requires 0 < divBits <= numBits <= 32 * width
    requires Pow2(divBits - 1) <= d0 < Pow2(divBits) && n0 < Pow2(numBits)
    ensures (d0 * Pow2(numBits - divBits)) % Weight(width) == d0 * Pow2(numBits - divBits)
    ensures n0 < d0 * Pow2(numBits - divBits + 1)
  {
    hide Pow2;
    var shift := numBits - divBits;
    Pow2Add(divBits, shift);
    Pow2Add(divBits - 1, shift + 1);
    Pow2Order(numBits, 32 * width);
    OneMore(d0, Pow2(divBits), Pow2(shift));
    MulOrder(0, d0, Pow2(shift));
    ModSmall(d0 * Pow2(shift), Weight(width));
    MulOrder(Pow2(divBits - 1), d0, Pow2(shift + 1));
  }

  /** q is the quotient found so far, a multiple of 2^(shift + 1), and r what is left. */
  ghost predicate Dividing(n0: int, d0: int, q: int, r: int, shift: int) {
    shift >= -1 && d0 > 0 && n0 == q * d0 + r && 0 <= r < d0 * Pow2(shift + 1) && q % Pow2(shift + 1) == 0
  }

  lemma DivisionStarts(n0: int, d0: int, shift: nat)
    requires d0 > 0 && 0 <= n0 < d0 * Pow2(shift + 1)
    ensures Dividing(n0, d0, 0, n0, shift)
  {
    ModSmall(0, Pow2(shift + 1));
  }

  lemma DivisionEnds(n0: int, d0: int, q: int, r: int)
    requires Dividing(n0, d0, q, r, -1)
    ensures q == n0 / d0 && r == n0 % d0
  {
    FirstPower();
    DivUnique(n0, d0, q, r);
  }

  lemma RoundSteps(n0: int, d0: int, q: int, r: int, shift: nat, w: int)
    requires Dividing(n0, d0, q, r, shift) && r < w
    ensures q % Pow2(shift + 1) == 0
    ensures if r >= d0 * Pow2(shift)
            then (r - d0 * Pow2(shift)) % w == r - d0 * Pow2(shift)
                 && Dividing(n0, d0, q + Pow2(shift), r - d0 * Pow2(shift), shift - 1)
            else Dividing(n0, d0, q, r, shift - 1)
  {
    hide Pow2;
    SubtractStep(q, r, d0, shift, w);
  }

  /** One round: q and r before, a multiple of 2^shift and a smaller remainder after. */
  lemma SubtractStep(q: int, r: int, d: int, shift: nat, w: int)
    requires 0 <= r < d * Pow2(shift + 1) && q % Pow2(shift + 1) == 0 && r < w && d >= 0
    ensures r >= d * Pow2(shift) ==>
              && (r - d * Pow2(shift)) % w == r - d * Pow2(shift) < d * Pow2(shift)
              && (q + Pow2(shift)) * d + (r - d * Pow2(shift)) == q * d + r
    ensures q % Pow2(shift) == 0 && (q + Pow2(shift)) % Pow2(shift) == 0
  {
    hide Pow2;
    var p := Pow2(shift);
    HalfPower(shift);
    assert d * (2 * p) == d * p + d * p;
    MulOrder(0, d, p);
    if r >= d * p {
      ModSmall(r - d * p, w);
      assert (q + p) * d == q * d + d * p;
    }
    EvenMultiple(q, p);
  }

  /** A multiple of 2 p, and p more, are multiples of p. */
  lemma EvenMultiple(q: int, p: int)
    requires p > 0 && q % (2 * p) == 0
    ensures q % p == 0 && (q + p) % p == 0
  {
    var k := q / (2 * p);
    assert q == k * (2 * p);
    assert q == (2 * k) * p + 0;
    DivUnique(q, p, 2 * k, 0);
    assert q + p == (2 * k + 1) * p + 0;
    DivUnique(q + p, p, 2 * k + 1, 0);
  }

  lemma HalfStep(d: int, shift: nat)
    requires shift > 0
    ensures (d * Pow2(shift)) / Pow2(1) == d * Pow2(shift - 1)
  {
    FirstPower();
    HalfPower(shift - 1);
    assert d * Pow2(shift) == (d * Pow2(shift - 1)) * 2 + 0;
    DivUnique(d * Pow2(shift), 2, d * Pow2(shift - 1), 0);
  }
}
