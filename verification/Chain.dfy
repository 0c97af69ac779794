/** The block tree with its skip list, and the active chain. */
module Chain {
  import opened Numbers
  import opened Prelude

  // ----- skip heights -----

  /** Bitwise and of two non-negative numbers. */
  function And(a: nat, b: nat): nat {
    if a == 0 then 0 else 2 * And(a / 2, b / 2) + if a % 2 == 1 && b % 2 == 1 then 1 else 0
  }

  /** n & (n - 1); for n == 0 the other operand is the all-ones word, and the result is 0. */
  function InvertLowestOne(n: nat): nat {
    if n == 0 then 0 else And(n, n - 1)
  }

  function GetSkipHeight(height: int): int {
    if height < 2 then 0
    else if height % 2 == 1 then InvertLowestOne(InvertLowestOne(height - 1)) + 1
    else InvertLowestOne(height)
  }

  lemma {:induction false} AndSelf(n: nat)
    ensures And(n, n) == n
  {
    if n > 0 { AndSelf(n / 2); }
  }

  /** The lowest one of (2m + 1) * 2^k is bit k, and it is the only bit that changes. */
  lemma {:induction false} LowestOneCleared(m: nat, k: nat)
    ensures (2 * m + 1) * Pow2(k) > 0
    ensures InvertLowestOne((2 * m + 1) * Pow2(k)) == 2 * m * Pow2(k)
    decreases k
  {
    hide And, InvertLowestOne;
    if k == 0 {
      OddCleared(m);
    } else {
      LowestOneCleared(m, k - 1);
      var n := (2 * m + 1) * Pow2(k - 1);
      Doubled(n);
      assert (2 * m + 1) * Pow2(k) == 2 * n;
      assert 2 * m * Pow2(k) == 2 * (2 * m * Pow2(k - 1));
    }
  }

  /** An even height skips to the height without its lowest one. */
  lemma SkipOfEven(m: nat, k: nat)
    requires k >= 1
    ensures GetSkipHeight((2 * m + 1) * Pow2(k)) == 2 * m * Pow2(k)
  {
    hide And, InvertLowestOne;
    LowestOneCleared(m, k);
    EvenPower(2 * m + 1, k);
  }

  /** An odd height loses its two lowest ones above the last bit. */
  lemma SkipOfOdd(j: nat, l: nat, k: nat)
    requires 1 <= k < l
    ensures GetSkipHeight((2 * j + 1) * Pow2(l) + Pow2(k) + 1) == 2 * j * Pow2(l) + 1
  {
    hide And, InvertLowestOne, GetSkipHeight, Pow2;
    var high, m := (2 * j + 1) * Pow2(l), (2 * j + 1) * Pow2(l - k - 1);
    assert high == m * Pow2(k + 1) by {
      Pow2Add(l - k - 1, k + 1);
      MulGroups(2 * j + 1, Pow2(l - k - 1), Pow2(k + 1));
    }
    TwiceAbove(m, k);
    LowestOneCleared(m, k);
    LowestOneCleared(j, l);
    EvenPower(2 * m + 1, k);
    OddSkips(high + Pow2(k));
  }

  /** Or the only one there is. */
  lemma SkipAfterPower(k: nat)
    requires k >= 1
    ensures GetSkipHeight(Pow2(k) + 1) == 1
  {
    hide And, InvertLowestOne, GetSkipHeight, Pow2;
    LowestOneCleared(0, k);
    EvenPower(1, k);
    assert (2 * 0 + 1) * Pow2(k) == Pow2(k) && 2 * 0 * Pow2(k) == 0 && 1 * Pow2(k) == Pow2(k);
    NothingToInvert();
    OddSkips(Pow2(k));
  }

  lemma OddSkips(n: nat)
    requires n >= 2 && n % 2 == 0
    ensures GetSkipHeight(n + 1) == InvertLowestOne(InvertLowestOne(n)) + 1
  {
    hide InvertLowestOne;
  }

  lemma NothingToInvert()
    ensures InvertLowestOne(0) == 0
  {
  }

  lemma TwiceAbove(m: nat, k: nat)
    ensures (2 * m + 1) * Pow2(k) == m * Pow2(k + 1) + Pow2(k) && 2 * m * Pow2(k) == m * Pow2(k + 1)
  {
    MulGroups(m, 2, Pow2(k));
    assert (2 * m + 1) * Pow2(k) == 2 * m * Pow2(k) + Pow2(k);
  }

  lemma EvenPower(m: nat, k: nat)
    requires k >= 1 && m >= 1
    ensures (m * Pow2(k)) % 2 == 0 && m * Pow2(k) >= 2
  {
    var p := m * Pow2(k - 1);
    assert m * Pow2(k) == 2 * p;
    MulOrder(1, m, Pow2(k - 1));
  }

  lemma OddCleared(m: nat)
    ensures InvertLowestOne(2 * m + 1) == 2 * m
  {
    AndSelf(m);
  }

  lemma Doubled(n: nat)
    requires n > 0
    ensures InvertLowestOne(2 * n) == 2 * InvertLowestOne(n)
  {
    assert (2 * n - 1) / 2 == n - 1;
  }

  lemma {:induction false} AndBound(a: nat, b: nat)
    ensures And(a, b) <= b
    decreases a
  {
    if a > 0 { AndBound(a / 2, b / 2); }
  }

  /** A skip pointer goes strictly back, and never below the genesis block. */
  lemma SkipHeightBelow(height: int)
    requires height > 0
    ensures 0 <= GetSkipHeight(height) < height
  {
    hide And;
    if height >= 2 {
      var n := if height % 2 == 1 then height - 1 else height;
      AndBound(n, n - 1);
      var m := InvertLowestOne(n);
      if m > 0 { AndBound(m, m - 1); }
    }
  }

  // ----- the block tree -----

  /** pprev and nHeight are fixed when a block enters the tree; pskip is set afterwards. */
  class CBlockIndex {
    const pprev: CBlockIndex?
    const nHeight: int
    var pskip: CBlockIndex?

    constructor (prev: CBlockIndex?)
      ensures pprev == prev && pskip == null
      ensures nHeight == if prev == null then 0 else prev.nHeight + 1
    {
      pprev, pskip := prev, null;
      nHeight := if prev == null then 0 else prev.nHeight + 1;
    }

    /** Heights count the steps to a block without a predecessor. */
    ghost predicate Linked()
      decreases nHeight
    {
      if pprev == null then nHeight == 0
      else nHeight > 0 && pprev.nHeight == nHeight - 1 && pprev.Linked()
    }

    method GetAncestor(height: int, ghost tree: set<CBlockIndex>) returns (r: CBlockIndex?)
      requires this in tree && IsTree(tree) && SkipsRight(tree)
      ensures r == null <==> height > nHeight || height < 0
      ensures r != null ==> r == Walk(this, height)
    {
      if height > nHeight || height < 0 { return null; }
      LinkedHeights(tree, this);
      var pindexWalk, heightWalk := this, nHeight;
      while heightWalk > height
        invariant 0 <= height <= heightWalk <= nHeight
        invariant pindexWalk in tree && pindexWalk.nHeight == heightWalk
        invariant Walk(pindexWalk, height) == Walk(this, height)
        decreases heightWalk
      {
        SkipHeightBelow(heightWalk);
        var heightSkip := GetSkipHeight(heightWalk);
        var heightSkipPrev := GetSkipHeight(heightWalk - 1);
        if pindexWalk.pskip != null
           && (heightSkip == height
               || (heightSkip > height && !(heightSkipPrev < heightSkip - 2 && heightSkipPrev >= height)))
        {
          WalkThrough(pindexWalk, heightSkip, height);
          WalkInTree(tree, pindexWalk, heightSkip);
          pindexWalk := pindexWalk.pskip;
          heightWalk := heightSkip;
        } else {
          assert pindexWalk.pprev != null;
          pindexWalk := pindexWalk.pprev;
          heightWalk := heightWalk - 1;
        }
      }
      r := pindexWalk;
    }

    method BuildSkip(ghost tree: set<CBlockIndex>)
      requires this in tree && IsTree(tree) && SkipsRight(tree)
      modifies this`pskip
      ensures SkipsRight(tree) && SkipSet(this)
      ensures pprev == null ==> pskip == old(pskip)
    {
      if pprev != null {
        LinkedHeights(tree, this);
        SkipHeightBelow(nHeight);
        var skip := pprev.GetAncestor(GetSkipHeight(nHeight), tree);
        pskip := skip;
      }
    }
  }

  /** Following pprev down to a height. */
  ghost function Walk(b: CBlockIndex, height: int): (r: CBlockIndex)
    requires b.Linked() && 0 <= height <= b.nHeight
    ensures r.Linked() && r.nHeight == height
    decreases b.nHeight
  {
    if b.nHeight == height then b else Walk(b.pprev, height)
  }

  /** A set of linked blocks that holds the predecessor of each. */
  ghost predicate IsTree(tree: set<CBlockIndex>) {
    forall b | b in tree :: b.Linked() && (b.pprev != null ==> b.pprev in tree)
  }

  ghost predicate SkipRight(b: CBlockIndex)
    requires b.Linked()
    reads b
  {
    b.pskip != null ==>
      && b.nHeight > 0
      && 0 <= GetSkipHeight(b.nHeight) < b.nHeight
      && b.pskip == Walk(b, GetSkipHeight(b.nHeight))
  }

  /** Every skip pointer that is set leads to the ancestor at the skip height. */
  ghost predicate SkipsRight(tree: set<CBlockIndex>)
    requires IsTree(tree)
    reads tree
  {
    forall b | b in tree :: SkipRight(b)
  }

  ghost predicate SkipSet(b: CBlockIndex)
    reads b
  {
    b.pprev != null ==> b.pskip != null
  }

  /** Every block but a first one has its skip pointer. */
  ghost predicate Built(tree: set<CBlockIndex>)
    requires IsTree(tree)
    reads tree
  {
    SkipsRight(tree) && forall b | b in tree :: SkipSet(b)
  }

  ghost predicate SingleGenesis(tree: set<CBlockIndex>) {
    forall a, b | a in tree && b in tree && a.nHeight == 0 && b.nHeight == 0 :: a == b
  }

  ghost predicate IsAncestor(a: CBlockIndex, b: CBlockIndex)
    requires a.Linked() && b.Linked()
  {
    0 <= a.nHeight <= b.nHeight && Walk(b, a.nHeight) == a
  }

  lemma LinkedHeights(tree: set<CBlockIndex>, b: CBlockIndex)
    requires IsTree(tree) && b in tree
    ensures b.nHeight >= 0 && (b.nHeight == 0 <==> b.pprev == null)
  {
  }

  lemma {:induction false} WalkThrough(b: CBlockIndex, mid: int, height: int)
    requires b.Linked() && 0 <= height <= mid <= b.nHeight
    ensures Walk(Walk(b, mid), height) == Walk(b, height)
    decreases b.nHeight
  {
    if mid < b.nHeight { WalkThrough(b.pprev, mid, height); }
  }

  lemma {:induction false} WalkInTree(tree: set<CBlockIndex>, b: CBlockIndex, height: int)
    requires IsTree(tree) && b in tree && 0 <= height <= b.nHeight
    ensures Walk(b, height) in tree
    decreases b.nHeight
  {
    if height < b.nHeight { WalkInTree(tree, b.pprev, height); }
  }

  /** A tree grows by a block whose predecessor, if it has one, is in the tree. */
  method AddBlock(prev: CBlockIndex?, ghost tree: set<CBlockIndex>) returns (b: CBlockIndex)
    requires IsTree(tree) && Built(tree) && (prev != null ==> prev in tree)
    ensures b.pprev == prev && fresh(b) && IsTree(tree + {b}) && Built(tree + {b})
    ensures SingleGenesis(tree) && (prev == null ==> tree == {}) ==> SingleGenesis(tree + {b})
  {
    hide Walk;
    b := new CBlockIndex(prev);
    if prev != null { LinkedHeights(tree, prev); }
    b.BuildSkip(tree + {b});
  }

  // ----- the last common ancestor -----

  /** r is a common ancestor, and the two blocks have different ancestors at every height above it. */
  ghost predicate IsFork(r: CBlockIndex, a: CBlockIndex, b: CBlockIndex)
    requires r.Linked() && a.Linked() && b.Linked()
  {
    && IsAncestor(r, a) && IsAncestor(r, b)
    && forall h :: r.nHeight < h <= a.nHeight && h <= b.nHeight ==> Walk(a, h) != Walk(b, h)
  }

  /** The fork is the common ancestor of greatest height. */
  lemma ForkIsHighest(r: CBlockIndex, a: CBlockIndex, b: CBlockIndex, c: CBlockIndex)
    requires r.Linked() && a.Linked() && b.Linked() && c.Linked()
    requires IsFork(r, a, b) && IsAncestor(c, a) && IsAncestor(c, b)
    ensures c.nHeight <= r.nHeight && IsAncestor(c, r)
  {
    assert c.nHeight <= r.nHeight;
    WalkThrough(a, r.nHeight, c.nHeight);
  }

  method LastCommonAncestor(a: CBlockIndex, b: CBlockIndex, ghost tree: set<CBlockIndex>) returns (r: CBlockIndex)
    requires a in tree && b in tree && IsTree(tree) && Built(tree) && SingleGenesis(tree)
    ensures r in tree && IsFork(r, a, b)
  {
    hide IsTree, Built, SingleGenesis, Rewound;
    var pa: CBlockIndex, pb: CBlockIndex := a, b;
    RewindFacts(tree, a, b);
    BuiltRight(tree);
    if pa.nHeight > pb.nHeight {
      var at := pa.GetAncestor(pb.nHeight, tree);
      pa := at;
    } else if pb.nHeight > pa.nHeight {
      var at := pb.GetAncestor(pa.nHeight, tree);
      pb := at;
    }
    while pa != pb
      invariant Rewound(tree, a, b, pa, pb)
      decreases pa.nHeight
    {
      ghost var start := pa.nHeight;
      while pa.pskip != pb.pskip
        invariant Rewound(tree, a, b, pa, pb) && pa != pb && pa.nHeight <= start
        decreases pa.nHeight
      {
        HigherThanGenesis(tree, a, b, pa, pb);
        SkipBoth(tree, a, b, pa, pb);
        pa, pb := pa.pskip, pb.pskip;
      }
      HigherThanGenesis(tree, a, b, pa, pb);
      StepBoth(tree, a, b, pa, pb);
      pa, pb := pa.pprev, pb.pprev;
    }
    MetAtFork(tree, a, b, pa);
    r := pa;
  }

  lemma BuiltRight(tree: set<CBlockIndex>)
    requires IsTree(tree) && Built(tree)
    ensures SkipsRight(tree)
  {
  }

  /** The ancestors at the smaller of the two heights. */
  lemma RewindFacts(tree: set<CBlockIndex>, a: CBlockIndex, b: CBlockIndex)
    requires IsTree(tree) && a in tree && b in tree
    ensures a.Linked() && b.Linked() && a.nHeight >= 0 && b.nHeight >= 0
    ensures a.nHeight >= b.nHeight ==> Rewound(tree, a, b, Walk(a, b.nHeight), b)
    ensures b.nHeight >= a.nHeight ==> Rewound(tree, a, b, a, Walk(b, a.nHeight))
  {
    LinkedHeights(tree, a);
    LinkedHeights(tree, b);
    if a.nHeight >= b.nHeight { WalkInTree(tree, a, b.nHeight); }
    if b.nHeight >= a.nHeight { WalkInTree(tree, b, a.nHeight); }
  }

  lemma MetAtFork(tree: set<CBlockIndex>, a: CBlockIndex, b: CBlockIndex, r: CBlockIndex)
    requires Rewound(tree, a, b, r, r)
    ensures r in tree && r.Linked() && a.Linked() && b.Linked() && IsFork(r, a, b)
  {
  }

  /** pa and pb are ancestors of a and b at one height, and above it the ancestors differ. */
  ghost predicate Rewound(tree: set<CBlockIndex>, a: CBlockIndex, b: CBlockIndex, pa: CBlockIndex, pb: CBlockIndex) {
    && IsTree(tree) && a in tree && b in tree && pa in tree && pb in tree
    && pa.nHeight == pb.nHeight && IsAncestor(pa, a) && IsAncestor(pb, b)
    && forall h :: pa.nHeight < h <= a.nHeight && h <= b.nHeight ==> Walk(a, h) != Walk(b, h)
  }

  lemma HigherThanGenesis(tree: set<CBlockIndex>, a: CBlockIndex, b: CBlockIndex, pa: CBlockIndex, pb: CBlockIndex)
    requires SingleGenesis(tree) && Rewound(tree, a, b, pa, pb) && pa != pb
    ensures pa.nHeight > 0 && pa.pprev != null && pb.pprev != null
  {
    LinkedHeights(tree, pa);
    LinkedHeights(tree, pb);
  }

  /** Different skip ancestors mean different ancestors at every height from there up. */
  lemma SkipBoth(tree: set<CBlockIndex>, a: CBlockIndex, b: CBlockIndex, pa: CBlockIndex, pb: CBlockIndex)
    requires IsTree(tree) && Rewound(tree, a, b, pa, pb) && Built(tree) && pa.pprev != null && pb.pprev != null
    requires pa.pskip != pb.pskip
    ensures pa.pskip != null && pb.pskip != null && pa.pskip.nHeight < pa.nHeight
    ensures Rewound(tree, a, b, pa.pskip, pb.pskip)
  {
    assert SkipSet(pa) && SkipSet(pb) && SkipRight(pa) && SkipRight(pb);
    var low := GetSkipHeight(pa.nHeight);
    WalkInTree(tree, pa, low);
    WalkInTree(tree, pb, low);
    WalkThrough(a, pa.nHeight, low);
    WalkThrough(b, pb.nHeight, low);
    forall h | low < h <= a.nHeight && h <= b.nHeight ensures Walk(a, h) != Walk(b, h) {
      WalkThrough(a, h, low);
      WalkThrough(b, h, low);
    }
  }

  lemma StepBoth(tree: set<CBlockIndex>, a: CBlockIndex, b: CBlockIndex, pa: CBlockIndex, pb: CBlockIndex)
    requires Rewound(tree, a, b, pa, pb) && pa != pb && pa.pprev != null && pb.pprev != null
    ensures pa.pprev.nHeight < pa.nHeight && Rewound(tree, a, b, pa.pprev, pb.pprev)
  {
    var low := pa.nHeight - 1;
    WalkThrough(a, pa.nHeight, low);
    WalkThrough(b, pb.nHeight, low);
  }

  // ----- the active chain -----

  /** All ancestors of a block, by height. */
  ghost predicate IsAncestry(chain: seq<CBlockIndex?>, tip: CBlockIndex)
    requires tip.Linked()
  {
    |chain| == tip.nHeight + 1 && forall h | 0 <= h < |chain| :: chain[h] == Walk(tip, h)
  }

  class CChain {
    var vChain: seq<CBlockIndex?>

    constructor ()
      ensures vChain == [] && WellFormed()
    {
      vChain := [];
    }

    /** The chain is empty, or it is the ancestry of its last block. */
    ghost predicate WellFormed()
      reads this
    {
      vChain != [] ==>
        var tip := vChain[|vChain| - 1];
        tip != null && tip.Linked() && IsAncestry(vChain, tip)
    }

    function Height(): int
      reads this
    {
      |vChain| - 1
    }

    function At(height: int): CBlockIndex?
      reads this
    {
      if height < 0 || height >= |vChain| then null else vChain[height]
    }

    predicate Contains(b: CBlockIndex)
      reads this
    {
      At(b.nHeight) == b
    }

    method SetTip(block: CBlockIndex)
      requires WellFormed() && block.Linked()
      modifies this
      ensures WellFormed() && IsAncestry(vChain, block)
    {
      hide IsAncestry, Walk, Updating;
      LinkedHeight(block);
      ghost var was := vChain;
      var size := block.nHeight + 1;
      vChain := if size <= |vChain| then vChain[..size] else vChain + seq(size - |vChain|, _ => null);
      var pindex: CBlockIndex? := block;
      ghost var done := size;
      UpdateStarts(was, vChain, block);
      while pindex != null && vChain[pindex.nHeight] != pindex
        invariant Updating(was, vChain, block, done, pindex)
        invariant |vChain| == size && 0 <= done <= size && (pindex != null ==> pindex.nHeight == done - 1)
        invariant pindex != null <==> done > 0
        decreases done
      {
        UpdateStep(was, vChain, block, done, pindex);
        vChain := vChain[pindex.nHeight := pindex];
        pindex := pindex.pprev;
        done := done - 1;
      }
      UpdateEnds(was, vChain, block, done, pindex);
    }

    method FindFork(block: CBlockIndex?, ghost tree: set<CBlockIndex>) returns (r: CBlockIndex?)
      requires WellFormed() && IsTree(tree) && SkipsRight(tree) && (block != null ==> block in tree)
      ensures block == null ==> r == null
      ensures r != null ==> Contains(r) && r.Linked() && IsAncestor(r, block)
      ensures block != null ==> NoneAbove(vChain, block, if r == null then -1 else r.nHeight)
    {
      hide Walk, NoneAbove, IsAncestor, WellFormed;
      if block == null { return null; }
      var pindex: CBlockIndex? := block;
      ForkStarts(tree, block, vChain);
      if block.nHeight > Height() {
        var at := block.GetAncestor(Height(), tree);
        pindex := at;
      }
      while pindex != null && !Contains(pindex)
        invariant pindex != null ==> pindex.Linked() && IsAncestor(pindex, block)
        invariant NoneAbove(vChain, block, if pindex == null then -1 else pindex.nHeight)
        decreases if pindex == null then 0 else 1 + pindex.nHeight
      {
        LinkedHeight(pindex);
        ForkStep(vChain, block, pindex);
        pindex := pindex.pprev;
      }
      r := pindex;
    }
  }

  /** No block of the chain above the given height is an ancestor of b. */
  ghost predicate NoneAbove(chain: seq<CBlockIndex?>, b: CBlockIndex, height: int)
    requires b.Linked()
  {
    forall h | height < h < |chain| && 0 <= h <= b.nHeight :: chain[h] != Walk(b, h)
  }

  lemma ForkStarts(tree: set<CBlockIndex>, b: CBlockIndex, chain: seq<CBlockIndex?>)
    requires IsTree(tree) && b in tree
    ensures b.Linked() && IsAncestor(b, b) && NoneAbove(chain, b, b.nHeight) && NoneAbove(chain, b, |chain| - 1)
    ensures 0 <= |chain| - 1 <= b.nHeight ==> IsAncestor(Walk(b, |chain| - 1), b)
  {
    LinkedHeights(tree, b);
  }

  lemma ForkStep(chain: seq<CBlockIndex?>, b: CBlockIndex, a: CBlockIndex)
    requires a.Linked() && b.Linked() && IsAncestor(a, b) && NoneAbove(chain, b, a.nHeight)
    requires a.nHeight < |chain| ==> chain[a.nHeight] != a
    ensures a.pprev == null ==> NoneAbove(chain, b, -1)
    ensures a.pprev != null ==>
              a.pprev.Linked() && a.pprev.nHeight < a.nHeight && IsAncestor(a.pprev, b)
              && NoneAbove(chain, b, a.pprev.nHeight)
  {
    Parent(b, a);
  }

  /** The chain from height `done` on is the new one; below it is what it was, as far as that reached. */
  ghost predicate Updating(
    was: seq<CBlockIndex?>, chain: seq<CBlockIndex?>, block: CBlockIndex, done: int, pindex: CBlockIndex?)
  {
    && block.Linked() && |chain| == block.nHeight + 1 && 0 <= done <= |chain|
    && pindex == (if done == 0 then null else Walk(block, done - 1))
    && (forall h | done <= h < |chain| :: chain[h] == Walk(block, h))
    && (forall h | 0 <= h < done :: chain[h] == if h < |was| then was[h] else null)
  }

  lemma UpdateStarts(was: seq<CBlockIndex?>, chain: seq<CBlockIndex?>, block: CBlockIndex)
    requires block.Linked() && block.nHeight >= 0
    requires chain == if block.nHeight + 1 <= |was| then was[..block.nHeight + 1]
                      else was + seq(block.nHeight + 1 - |was|, _ => null)
    ensures Updating(was, chain, block, block.nHeight + 1, block)
  {
  }

  lemma UpdateStep(
    was: seq<CBlockIndex?>, chain: seq<CBlockIndex?>, block: CBlockIndex, done: int, pindex: CBlockIndex?)
    requires Updating(was, chain, block, done, pindex) && pindex != null
    ensures pindex.nHeight == done - 1 && (pindex.pprev != null ==> pindex.pprev.nHeight == done - 2)
    ensures pindex.pprev != null <==> done > 1
    ensures Updating(was, chain[done - 1 := pindex], block, done - 1, pindex.pprev)
  {
    Parent(block, pindex);
  }

  lemma UpdateEnds(
    was: seq<CBlockIndex?>, chain: seq<CBlockIndex?>, block: CBlockIndex, done: int, pindex: CBlockIndex?)
    requires Updating(was, chain, block, done, pindex) && (pindex != null ==> chain[pindex.nHeight] == pindex)
    requires was != [] ==> var tip := was[|was| - 1]; tip != null && tip.Linked() && IsAncestry(was, tip)
    ensures IsAncestry(chain, block) && chain[|chain| - 1] == block
  {
    if done > 0 { OldPart(was, was[|was| - 1], block, done - 1); }
  }

  lemma LinkedHeight(b: CBlockIndex)
    requires b.Linked()
    ensures b.nHeight >= 0
  {
  }

  lemma Parent(b: CBlockIndex, a: CBlockIndex)
    requires a.Linked() && b.Linked() && IsAncestor(a, b)
    ensures a.pprev == null <==> a.nHeight == 0
    ensures a.nHeight > 0 ==> a.pprev == Walk(b, a.nHeight - 1) && IsAncestor(a.pprev, b)
  {
    if a.nHeight > 0 { WalkThrough(b, a.nHeight, a.nHeight - 1); }
  }

  /** Where the old chain already held an ancestor of the new tip, it held that ancestor's whole ancestry. */
  lemma OldPart(was: seq<CBlockIndex?>, tip: CBlockIndex?, block: CBlockIndex, top: nat)
    requires block.Linked() && top <= block.nHeight && top < |was|
    requires tip != null && tip.Linked() && IsAncestry(was, tip) && was[top] == Walk(block, top)
    ensures forall h | 0 <= h <= top :: was[h] == Walk(block, h)
  {
    forall h | 0 <= h <= top ensures was[h] == Walk(block, h) {
      WalkThrough(tip, top, h);
      WalkThrough(block, top, h);
    }
  }

  // ----- locators -----

  /** The distance of the i-th step back. */
  function StepAt(i: nat): (r: int)
    ensures r >= 1
  {
    if i <= 10 then 1 else Pow2(i - 10)
  }

  /** From b back to the genesis block, by single steps at first and then by doubling ones. */
  ghost predicate IsLocator(have: seq<CBlockIndex>, b: CBlockIndex)
    requires b.Linked()
  {
    && have != [] && have[0] == b && have[|have| - 1].nHeight == 0
    && (forall i | 0 <= i < |have| :: have[i].Linked() && IsAncestor(have[i], b))
    && (forall i | 0 <= i < |have| - 1 :: have[i].nHeight > 0)
    && Spaced(have)
  }

  /** Each entry is one step below the one before it, but not below height 0. */
  ghost predicate Spaced(have: seq<CBlockIndex>) {
    forall i | 0 <= i < |have| - 1 :: have[i + 1].nHeight == Max(have[i].nHeight - StepAt(i), 0)
  }

  method LocatorEntries(index: CBlockIndex?, ghost tree: set<CBlockIndex>) returns (have: seq<CBlockIndex>)
    requires IsTree(tree) && SkipsRight(tree) && (index != null ==> index in tree)
    ensures index == null ==> have == []
    ensures index != null ==> IsLocator(have, index)
  {
    hide IsTree, SkipsRight, Underway, IsLocator;
    have := [];
    if index == null { return; }
    FirstEntry(tree, index);
    var step := 1;
    var at: CBlockIndex := index;
    while true
      invariant step == StepAt(|have|) && at in tree && Underway(have, at, index)
      decreases at.nHeight
    {
      if at.nHeight == 0 {
        LastEntry(have, at, index);
        have := have + [at];
        break;
      }
      var height := Max(at.nHeight - step, 0);
      NextEntry(tree, have, at, index);
      have := have + [at];
      var next := at.GetAncestor(height, tree);
      at := next;
      if |have| > 10 { step := step * 2; }
    }
  }

  /** The entries so far, with the block whose turn is next. */
  ghost predicate Underway(have: seq<CBlockIndex>, at: CBlockIndex, b: CBlockIndex) {
    && b.Linked() && at.Linked() && IsAncestor(at, b) && (have + [at])[0] == b
    && AboveGenesis(have, b) && Spaced(have + [at])
  }

  ghost predicate AboveGenesis(have: seq<CBlockIndex>, b: CBlockIndex)
    requires b.Linked()
  {
    forall i | 0 <= i < |have| :: have[i].Linked() && IsAncestor(have[i], b) && have[i].nHeight > 0
  }

  lemma FirstEntry(tree: set<CBlockIndex>, b: CBlockIndex)
    requires IsTree(tree) && b in tree
    ensures Underway([], b, b)
  {
    LinkedHeights(tree, b);
  }

  lemma NextEntry(tree: set<CBlockIndex>, have: seq<CBlockIndex>, at: CBlockIndex, b: CBlockIndex)
    requires IsTree(tree) && at in tree && Underway(have, at, b) && at.nHeight != 0
    ensures var height := Max(at.nHeight - StepAt(|have|), 0);
            && at.Linked() && 0 <= height < at.nHeight
            && Walk(at, height) in tree && Underway(have + [at], Walk(at, height), b)
  {
    hide IsTree, StepAt;
    var height := Max(at.nHeight - StepAt(|have|), 0);
    WalkInTree(tree, at, height);
    WalkThrough(b, at.nHeight, height);
    EntryPushed(have, at, Walk(at, height), b);
  }

  lemma EntryPushed(have: seq<CBlockIndex>, at: CBlockIndex, next: CBlockIndex, b: CBlockIndex)
    requires Underway(have, at, b) && at.nHeight > 0 && next.Linked() && IsAncestor(next, b)
    requires next.nHeight == Max(at.nHeight - StepAt(|have|), 0)
    ensures Underway(have + [at], next, b)
  {
    hide Walk, IsAncestor, StepAt, AboveGenesis, Spaced;
    AbovePushed(have, at, b);
    SpacedPushed(have + [at], next);
    assert (have + [at] + [next])[0] == (have + [at])[0];
  }

  lemma AbovePushed(have: seq<CBlockIndex>, at: CBlockIndex, b: CBlockIndex)
    requires b.Linked() && AboveGenesis(have, b) && at.Linked() && IsAncestor(at, b) && at.nHeight > 0
    ensures AboveGenesis(have + [at], b)
  {
    hide Walk, IsAncestor;
  }

  lemma SpacedPushed(all: seq<CBlockIndex>, next: CBlockIndex)
    requires Spaced(all) && all != [] && next.nHeight == Max(all[|all| - 1].nHeight - StepAt(|all| - 1), 0)
    ensures Spaced(all + [next])
  {
    hide StepAt;
    forall i | 0 <= i < |all| ensures (all + [next])[i + 1].nHeight == Max(all[i].nHeight - StepAt(i), 0) {
      if i < |all| - 1 { assert (all + [next])[i + 1] == all[i + 1]; }
    }
  }

  lemma LastEntry(have: seq<CBlockIndex>, at: CBlockIndex, b: CBlockIndex)
    requires Underway(have, at, b) && at.nHeight == 0
    ensures IsLocator(have + [at], b)
  {
    hide Walk, StepAt, IsAncestor, Spaced;
    var all := have + [at];
    assert all[|all| - 1] == at;
    forall i | 0 <= i < |all| ensures all[i].Linked() && IsAncestor(all[i], b) && (i < |have| ==> all[i].nHeight > 0) {
      if i < |have| { assert all[i] == have[i]; }
    }
  }

  /** A locator is short: at most 12 entries and one more for each bit of the height. */
  lemma LocatorIsShort(have: seq<CBlockIndex>, b: CBlockIndex, bits: nat)
    requires b.Linked() && IsLocator(have, b) && b.nHeight < Pow2(bits)
    ensures |have| <= 12 + bits
  {
    if |have| > 12 + bits { LocatorDrop(have, b, bits); }
  }

  /** The steps up to entry 11 + k go back by at least 2^k blocks. */
  lemma {:induction false} LocatorDrop(have: seq<CBlockIndex>, b: CBlockIndex, k: nat)
    requires b.Linked() && IsLocator(have, b) && 12 + k < |have|
    ensures have[11 + k].nHeight <= b.nHeight - Pow2(k)
    decreases k
  {
    if k == 0 {
      assert have[11].nHeight < have[10].nHeight <= b.nHeight;
    } else {
      LocatorDrop(have, b, k - 1);
      assert StepAt(10 + k) == Pow2(k);
    }
  }

  /** The height of every entry: single steps up to entry 10, then as far below as the step has grown. */
  lemma {:induction false} LocatorHeights(have: seq<CBlockIndex>, b: CBlockIndex, i: nat)
    requires b.Linked() && IsLocator(have, b) && i < |have|
    ensures have[i].nHeight == if i <= 10 then b.nHeight - i else Max(b.nHeight - 9 - StepAt(i), 0)
    decreases i
  {
    if i > 0 {
      LocatorHeights(have, b, i - 1);
      assert have[i].nHeight == Max(have[i - 1].nHeight - StepAt(i - 1), 0);
      if i > 10 { StepDoubles(i - 1); }
    }
  }

  lemma StepDoubles(i: nat)
    requires i >= 10
    ensures StepAt(i + 1) == 2 * StepAt(i)
  {
  }

  /** The largest step fits a signed 32-bit integer exactly for heights up to 2^30 + 9. */
  lemma LocatorStepFits(have: seq<CBlockIndex>, b: CBlockIndex)
    requires b.Linked() && IsLocator(have, b)
    ensures (forall i | 0 <= i < |have| :: StepAt(i) < 0x8000_0000) <==> b.nHeight <= 0x4000_0009
  {
    hide StepAt, IsLocator;
    var last := LastStep(have, b);
    forall i | 0 <= i < |have| ensures StepAt(i) <= StepAt(last) { StepsGrow(i, last); }
    if b.nHeight > 0x4000_0009 { WideStep(last); }
  }

  /** The last step taken leads from above the genesis block to it. */
  lemma LastStep(have: seq<CBlockIndex>, b: CBlockIndex) returns (last: nat)
    requires b.Linked() && IsLocator(have, b)
    ensures last == |have| - 1
    ensures last > 10 ==> b.nHeight - 9 <= StepAt(last) < 2 * (b.nHeight - 9)
    ensures last <= 10 ==> StepAt(last) == 1 && b.nHeight <= 10
  {
    last := |have| - 1;
    LocatorHeights(have, b, last);
    if last > 10 {
      LocatorHeights(have, b, last - 1);
      StepDoubles(last - 1);
    }
  }

  lemma {:induction false} StepsGrow(i: nat, j: nat)
    requires i <= j
    ensures StepAt(i) <= StepAt(j)
    decreases j
  {
    if i < j {
      StepsGrow(i, j - 1);
      if j > 10 { StepDoubles(j - 1); }
    }
  }

  /** Steps are powers of two: one above 2^30 is at least 2^31. */
  lemma WideStep(i: nat)
    requires StepAt(i) > 0x4000_0000
    ensures StepAt(i) >= 0x8000_0000
  {
    assert Pow2(10) == 0x400;
    Pow2Add(10, 10);
    Pow2Add(20, 10);
    assert StepAt(40) == 0x4000_0000 && StepAt(41) == 0x8000_0000;
    if i <= 40 { StepsGrow(i, 40); } else { StepsGrow(41, i); }
  }
}
