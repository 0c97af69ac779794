/** Small shared vocabulary: optional values and facts about finite sets. */
module Prelude {

  datatype Option<+T> = None | Some(value: T)

  function Max(a: int, b: int): int { if a < b then b else a }

  function Min(a: int, b: int): int { if a < b then a else b }

  /** A proper part of a finite set is smaller; equal size means equal sets. */
  lemma SubsetCardinality<T>(a: set<T>, b: set<T>)
    requires a <= b
    ensures |a| <= |b|
    ensures |a| == |b| ==> a == b
  {
    assert b == a + (b - a);
    assert |b| == |a| + |b - a|;
  }

  /** Two sets that agree except perhaps on x differ in size by x alone. */
  lemma OneApart<T>(a: set<T>, b: set<T>, x: T)
    requires a - {x} == b - {x}
    ensures |b| == |a| + (if x in b then 1 else 0) - (if x in a then 1 else 0)
  {
    assert a == (a - {x}) + (if x in a then {x} else {});
    assert b == (b - {x}) + (if x in b then {x} else {});
  }

  predicate Distinct(ids: seq<int>) { forall j, k | 0 <= j < k < |ids| :: ids[j] != ids[k] }

  function Members(ids: seq<int>): set<int> { set id | id in ids }

  /** A list without repetition has as many places as members. */
  lemma {:induction false} DistinctSize(ids: seq<int>)
    requires Distinct(ids)
    ensures |Members(ids)| == |ids|
    decreases |ids|
  {
    if ids == [] {
      assert Members(ids) == {};
    } else {
      var n := |ids| - 1;
      assert ids == ids[..n] + [ids[n]];
      DistinctSize(ids[..n]);
      assert Members(ids) == Members(ids[..n]) + {ids[n]};
    }
  }

  lemma SameInts(a: set<int>, b: set<int>)
    requires forall x :: x in a <==> x in b
    ensures a == b
  {
    if a - b != {} {
      var x := Witness(a - b);
      assert false;
    }
    if b - a != {} {
      var x := Witness(b - a);
      assert false;
    }
  }

  /** Some member of a non-empty set, for use in proofs. */
  lemma Witness<T>(s: set<T>) returns (x: T)
    requires s != {}
    ensures x in s
  {
    x :| x in s;
  }

  /** Any member of a non-empty set. */
  method Pick<T>(s: set<T>) returns (x: T)
    requires s != {}
    ensures x in s
  {
    x :| x in s;
  }

  /** The least element of a non-empty set of integers, found by walking through it. */
  method Least(s: set<int>) returns (x: int)
    requires s != {}
    ensures x in s && forall y | y in s :: x <= y
  {
    x := Pick(s);
    var rest := s - {x};
    while rest != {}
      invariant rest <= s && x in s
      invariant forall y | y in s && y !in rest :: x <= y
      decreases |rest|
    {
      var y := Pick(rest);
      if y < x { x := y; }
      rest := rest - {y};
    }
  }

  lemma {:induction false} MembersSize(ids: seq<int>)
    ensures |Members(ids)| <= |ids|
    decreases |ids|
  {
    if ids != [] {
      var n := |ids| - 1;
      MembersSize(ids[..n]);
      SameInts(Members(ids), Members(ids[..n]) + {ids[n]});
    }
  }
}
