/** The differential encoding of the index lists in compact-block messages. */
module Differences {
  import opened Prelude

  const UINT64_MAX := 0xffff_ffff_ffff_ffff

  /** The largest number that is read back; larger ones are written but refused by the reader. */
  const MAX_SIZE := 0x0200_0000

  /** The numbers written for a list of values, or None where an exception is thrown. */
  function Gaps(vs: seq<int>, shift: int): Option<seq<int>>
    decreases |vs|
  {
    if vs == [] then Some([])
    else if vs[0] < shift || vs[0] >= UINT64_MAX then None
    else
      var rest := Gaps(vs[1..], vs[0] + 1);
      if rest.None? then None else Some([vs[0] - shift] + rest.value)
  }

  /** The sum of two 64-bit words, as a 64-bit word. */
  function Plus(a: int, b: int): int {
    if a + b > UINT64_MAX then a + b - UINT64_MAX - 1 else a + b
  }

  /** The values read back into a type of largest value max, or None where an exception is thrown. */
  function Sums(ns: seq<int>, shift: int, max: int): Option<seq<int>>
    decreases |ns|
  {
    if ns == [] then Some([])
    else
      var v := Plus(shift, ns[0]);
      if ns[0] > MAX_SIZE || v < ns[0] || v >= UINT64_MAX || v > max then None
      else
        var rest := Sums(ns[1..], v + 1, max);
        if rest.None? then None else Some([v] + rest.value)
  }

  class DifferenceFormatter {
    var mShift: int

    constructor ()
      ensures mShift == 0
    {
      mShift := 0;
    }

    method Ser(v: int) returns (r: Option<int>)
      requires 0 <= v <= UINT64_MAX && 0 <= mShift <= UINT64_MAX
      modifies this
      ensures r == if v < old(mShift) || v >= UINT64_MAX then None else Some(v - old(mShift))
      ensures mShift == (if r.Some? then v + 1 else old(mShift)) <= UINT64_MAX
    {
      if v < mShift || v >= UINT64_MAX { return None; }
      r := Some(v - mShift);
      mShift := v + 1;
    }

    method Unser(n: int, max: int) returns (r: Option<int>)
      requires 0 <= n <= UINT64_MAX && 0 <= mShift <= UINT64_MAX
      modifies this
      ensures var v := Plus(old(mShift), n);
              r == if n > MAX_SIZE || v < n || v >= UINT64_MAX || v > max then None else Some(v)
      ensures r.Some? ==> mShift == r.value + 1 <= UINT64_MAX
    {
      if n > MAX_SIZE { return None; }
      mShift := Plus(mShift, n);
      if mShift < n || mShift >= UINT64_MAX || mShift > max { return None; }
      r := Some(mShift);
      mShift := mShift + 1;
    }
  }

  method Write(vs: seq<int>) returns (r: Option<seq<int>>)
    requires forall k | 0 <= k < |vs| :: 0 <= vs[k] <= UINT64_MAX
    ensures r == Gaps(vs, 0) && (r.Some? <==> Rising(vs, 0))
  {
    WritableIffRising(vs, 0);
    var f := new DifferenceFormatter();
    var out: seq<int> := [];
    var i := 0;
    Start(vs, Gaps(vs, 0));
    while i < |vs|
      invariant 0 <= i <= |vs| && 0 <= f.mShift <= UINT64_MAX && fresh(f)
      invariant var rest := Gaps(vs[i..], f.mShift);
                Gaps(vs, 0) == if rest.None? then None else Some(out + rest.value)
    {
      ghost var shift, tail := f.mShift, vs[i..];
      assert tail[0] == vs[i] && tail[1..] == vs[i + 1..];
      var n := f.Ser(vs[i]);
      if n.None? { return None; }
      Rejoin(out, n.value, Gaps(tail[1..], f.mShift));
      out := out + [n.value];
      i := i + 1;
    }
    assert out + [] == out;
    r := Some(out);
  }

  method Read(ns: seq<int>, max: int) returns (r: Option<seq<int>>)
    requires forall k | 0 <= k < |ns| :: 0 <= ns[k] <= UINT64_MAX
    ensures r == Sums(ns, 0, max) && (r.Some? ==> Gaps(r.value, 0) == Some(ns))
  {
    if Sums(ns, 0, max).Some? { WritesBack(ns, 0, max); }
    var f := new DifferenceFormatter();
    var out: seq<int> := [];
    var i := 0;
    Start(ns, Sums(ns, 0, max));
    while i < |ns|
      invariant 0 <= i <= |ns| && 0 <= f.mShift <= UINT64_MAX && fresh(f)
      invariant var rest := Sums(ns[i..], f.mShift, max);
                Sums(ns, 0, max) == if rest.None? then None else Some(out + rest.value)
    {
      ghost var shift, tail := f.mShift, ns[i..];
      assert tail[0] == ns[i] && tail[1..] == ns[i + 1..];
      var v := f.Unser(ns[i], max);
      if v.None? { return None; }
      Rejoin(out, v.value, Sums(tail[1..], f.mShift, max));
      out := out + [v.value];
      i := i + 1;
    }
    assert out + [] == out;
    r := Some(out);
  }

  lemma Start(s: seq<int>, all: Option<seq<int>>)
    ensures s[0..] == s && (all.Some? ==> [] + all.value == all.value)
  {
  }

  lemma Rejoin(out: seq<int>, x: int, rest: Option<seq<int>>)
    ensures rest.Some? ==> out + ([x] + rest.value) == (out + [x]) + rest.value
  {
  }

  ghost predicate Rising(vs: seq<int>, shift: int) {
    && (forall k | 0 <= k < |vs| :: shift <= vs[k] < UINT64_MAX)
    && forall j, k | 0 <= j < k < |vs| :: vs[j] < vs[k]
  }

  /** Exactly the strictly rising lists can be written. */
  lemma {:induction false} WritableIffRising(vs: seq<int>, shift: int)
    ensures Gaps(vs, shift).Some? <==> Rising(vs, shift)
    decreases |vs|
  {
    hide Rising;
    if vs == [] {
      NothingRising(shift);
    } else {
      WritableIffRising(vs[1..], vs[0] + 1);
      if Rising(vs, shift) { RisingLess(vs, shift); }
      if Rising(vs[1..], vs[0] + 1) && shift <= vs[0] < UINT64_MAX { RisingMore(vs, shift); }
    }
  }

  lemma NothingRising(shift: int)
    ensures Rising([], shift)
  {
  }

  lemma RisingLess(vs: seq<int>, shift: int)
    requires vs != [] && Rising(vs, shift)
    ensures Rising(vs[1..], vs[0] + 1) && shift <= vs[0] < UINT64_MAX
  {
    forall k | 0 <= k < |vs[1..]| ensures vs[0] + 1 <= vs[1..][k] < UINT64_MAX { assert vs[1..][k] == vs[k + 1]; }
  }

  lemma RisingMore(vs: seq<int>, shift: int)
    requires vs != [] && Rising(vs[1..], vs[0] + 1) && shift <= vs[0] < UINT64_MAX
    ensures Rising(vs, shift)
  {
    forall k | 0 <= k < |vs| ensures shift <= vs[k] < UINT64_MAX {
      if k > 0 { assert vs[k] == vs[1..][k - 1]; }
    }
    forall j, k | 0 <= j < k < |vs| ensures vs[j] < vs[k] {
      assert vs[k] == vs[1..][k - 1];
      if j > 0 { assert vs[j] == vs[1..][j - 1]; }
    }
  }

  predicate AllReadable(ns: seq<int>) { forall k | 0 <= k < |ns| :: ns[k] <= MAX_SIZE }

  /** What was written into a type that fits the values reads back as it was, exactly if no number exceeds MAX_SIZE. */
  lemma {:induction false} ReadsBack(vs: seq<int>, shift: int, max: int)
    requires Gaps(vs, shift).Some? && shift >= 0 && forall k | 0 <= k < |vs| :: vs[k] <= max
    ensures Sums(Gaps(vs, shift).value, shift, max) == if AllReadable(Gaps(vs, shift).value) then Some(vs) else None
    ensures max <= MAX_SIZE ==> AllReadable(Gaps(vs, shift).value)
    decreases |vs|
  {
    hide Gaps, Sums;
    GapsStep(vs, shift);
    if vs == [] {
      SumsStep([], shift, max);
    } else {
      var rest := Gaps(vs[1..], vs[0] + 1).value;
      ReadsBack(vs[1..], vs[0] + 1, max);
      var ns := [vs[0] - shift] + rest;
      SumsStep(ns, shift, max);
      assert ns[1..] == rest;
      ReadableSplit(vs[0] - shift, rest);
      assert vs == [vs[0]] + vs[1..];
    }
  }

  lemma ReadableSplit(n: int, rest: seq<int>)
    ensures AllReadable([n] + rest) <==> n <= MAX_SIZE && AllReadable(rest)
  {
    assert ([n] + rest)[0] == n;
    assert forall k | 0 <= k < |rest| :: ([n] + rest)[k + 1] == rest[k];
  }

  /** The definitions, unfolded once. */
  lemma GapsStep(vs: seq<int>, shift: int)
    ensures Gaps(vs, shift) ==
            if vs == [] then Some([])
            else if vs[0] < shift || vs[0] >= UINT64_MAX || Gaps(vs[1..], vs[0] + 1).None? then None
            else Some([vs[0] - shift] + Gaps(vs[1..], vs[0] + 1).value)
  {
  }

  lemma SumsStep(ns: seq<int>, shift: int, max: int)
    ensures Sums(ns, shift, max) ==
            if ns == [] then Some([])
            else
              var v := Plus(shift, ns[0]);
              if ns[0] > MAX_SIZE || v < ns[0] || v >= UINT64_MAX || v > max || Sums(ns[1..], v + 1, max).None?
              then None
              else Some([v] + Sums(ns[1..], v + 1, max).value)
  {
  }

  /** What was read was a strictly rising list, and writing it gives the same numbers. */
  lemma {:induction false} WritesBack(ns: seq<int>, shift: int, max: int)
    requires 0 <= shift <= UINT64_MAX && forall k | 0 <= k < |ns| :: 0 <= ns[k] <= UINT64_MAX
    requires Sums(ns, shift, max).Some?
    ensures Gaps(Sums(ns, shift, max).value, shift) == Some(ns)
    decreases |ns|
  {
    hide Gaps, Sums;
    SumsStep(ns, shift, max);
    if ns == [] {
      GapsStep([], shift);
    } else {
      var v := Plus(shift, ns[0]);
      var rest := Sums(ns[1..], v + 1, max).value;
      WritesBack(ns[1..], v + 1, max);
      var vs := [v] + rest;
      GapsStep(vs, shift);
      assert vs[1..] == rest;
      assert ns == [ns[0]] + ns[1..];
    }
  }

  /** What a value must exceed: the one before it, or the start. */
  function Before(vs: seq<int>, shift: int, i: nat): int
    requires i <= |vs|
  {
    if i == 0 then shift else vs[i - 1] + 1
  }

  /** The numbers written are the distances from one value to the next. */
  lemma {:induction false} GapsAt(vs: seq<int>, shift: int, i: nat)
    requires Gaps(vs, shift).Some? && i < |vs|
    ensures |Gaps(vs, shift).value| == |vs|
    ensures Gaps(vs, shift).value[i] == vs[i] - Before(vs, shift, i) >= 0
    decreases |vs|
  {
    hide Gaps;
    GapsStep(vs, shift);
    GapsSize(vs, shift);
    if i > 0 { GapsAt(vs[1..], vs[0] + 1, i - 1); }
  }

  lemma {:induction false} GapsSize(vs: seq<int>, shift: int)
    requires Gaps(vs, shift).Some?
    ensures |Gaps(vs, shift).value| == |vs|
    decreases |vs|
  {
    if vs != [] { GapsSize(vs[1..], vs[0] + 1); }
  }

  /** And values at these distances are written so. */
  lemma {:induction false} GapsAre(vs: seq<int>, shift: int, ns: seq<int>)
    requires |ns| == |vs|
    requires forall i | 0 <= i < |vs| :: ns[i] >= 0 && vs[i] == Before(vs, shift, i) + ns[i] < UINT64_MAX
    ensures Gaps(vs, shift) == Some(ns)
    decreases |vs|
  {
    hide Gaps;
    GapsStep(vs, shift);
    if vs != [] {
      assert vs[0] == Before(vs, shift, 0) + ns[0];
      forall i | 0 <= i < |vs[1..]|
        ensures ns[1..][i] >= 0 && vs[1..][i] == Before(vs[1..], vs[0] + 1, i) + ns[1..][i] < UINT64_MAX
      {
        assert vs[i + 1] == Before(vs, shift, i + 1) + ns[i + 1];
      }
      GapsAre(vs[1..], vs[0] + 1, ns[1..]);
      assert [ns[0]] + ns[1..] == ns;
    }
  }
}
