/** Compact blocks: the short form of a block, and its reconstruction from what the receiver already has. */
module CompactBlocks {
  import opened Prelude
  import opened Differences

  const MAX_BLOCK_WEIGHT := 4_000_000
  const MIN_SERIALIZABLE_TRANSACTION_WEIGHT := 40
  const UINT16_MAX := 65535

  /** wtxid is the witness hash; isNull marks the transaction without inputs and outputs. */
  datatype Tx = Tx(wtxid: int, body: int, isNull: bool)

  datatype Header = Header(nBits: int, rest: int) {
    predicate IsNull() { nBits == 0 }
  }

  const NULL_HEADER := Header(0, 0)

  datatype Block = Block(header: Header, vtx: seq<Tx>)

  datatype Prefilled = Prefilled(index: int, tx: Tx)

  datatype CompactBlock = CompactBlock(header: Header, nonce: int, shorttxids: seq<int>, prefilledtxn: seq<Prefilled>) {
    function BlockTxCount(): nat { |shorttxids| + |prefilledtxn| }
  }

  /** The keyed hash behind short ids: of a header, a nonce and a witness hash. */
  type Hasher = (Header, int, int) -> int

  function ShortId(hash: Hasher, c: CompactBlock, tx: Tx): int {
    hash(c.header, c.nonce, tx.wtxid)
  }

  datatype ReadStatus = Ok | Invalid | Failed

  type Slots = seq<Option<Tx>>

  // ----- making the short form -----

  /** c is the short form of a block: the first transaction in full, the others as short ids, in order. */
  ghost predicate IsCompactOf(c: CompactBlock, block: Block, nonce: int, hash: Hasher) {
    && block.vtx != [] && c.header == block.header && c.nonce == nonce
    && c.prefilledtxn == [Prefilled(0, block.vtx[0])]
    && |c.shorttxids| == |block.vtx| - 1
    && forall i | 0 <= i < |c.shorttxids| :: c.shorttxids[i] == hash(block.header, nonce, block.vtx[i + 1].wtxid)
  }

  method MakeCompact(block: Block, nonce: int, hash: Hasher) returns (c: CompactBlock)
    requires block.vtx != []
    ensures IsCompactOf(c, block, nonce, hash)
  {
    var ids := new int[|block.vtx| - 1];
    var i := 1;
    while i < |block.vtx|
      invariant 1 <= i <= |block.vtx|
      invariant forall k | 0 <= k < i - 1 :: ids[k] == hash(block.header, nonce, block.vtx[k + 1].wtxid)
    {
      ids[i - 1] := hash(block.header, nonce, block.vtx[i].wtxid);
      i := i + 1;
    }
    c := CompactBlock(block.header, nonce, ids[..], [Prefilled(0, block.vtx[0])]);
  }

  // ----- the prefilled transactions -----

  /** The position of prefilled transaction i: indexes are distances from one to the next. */
  function Position(pre: seq<Prefilled>, i: int): int
    requires i < |pre|
    decreases i
  {
    if i < 0 then -1 else Position(pre, i - 1) + pre[i].index + 1
  }

  predicate PlacedWell(c: CompactBlock, i: nat)
    requires i < |c.prefilledtxn|
  {
    && !c.prefilledtxn[i].tx.isNull
    && Position(c.prefilledtxn, i) <= UINT16_MAX
    && Position(c.prefilledtxn, i) <= |c.shorttxids| + i
  }

  predicate PlacedUpTo(c: CompactBlock, n: nat) {
    n <= |c.prefilledtxn| && forall i | 0 <= i < n :: PlacedWell(c, i)
  }

  /** The message's 16-bit fields, as deserialization leaves them. */
  predicate Deserialized(c: CompactBlock) {
    && c.BlockTxCount() <= UINT16_MAX
    && forall i | 0 <= i < |c.prefilledtxn| :: 0 <= c.prefilledtxn[i].index <= UINT16_MAX
  }

  function Empty(n: nat): Slots { seq(n, _ => None) }

  /** The slots after the first n prefilled transactions were placed. */
  function Placed(c: CompactBlock, n: nat): (s: Slots)
    requires Deserialized(c) && PlacedUpTo(c, n)
    ensures |s| == c.BlockTxCount()
    decreases n
  {
    if n == 0 then Empty(c.BlockTxCount())
    else
      PositionRange(c, n - 1);
      Placed(c, n - 1)[Position(c.prefilledtxn, n - 1) := Some(c.prefilledtxn[n - 1].tx)]
  }

  lemma {:induction false} PositionRange(c: CompactBlock, i: int)
    requires Deserialized(c) && -1 <= i < |c.prefilledtxn| && (i >= 0 ==> PlacedWell(c, i))
    ensures i >= 0 ==> 0 <= Position(c.prefilledtxn, i) < c.BlockTxCount()
    ensures i >= 0 ==> Position(c.prefilledtxn, i) > Position(c.prefilledtxn, i - 1)
  {
    PositionGrows(c, i);
  }

  lemma {:induction false} PositionGrows(c: CompactBlock, i: int)
    requires Deserialized(c) && -1 <= i < |c.prefilledtxn|
    ensures Position(c.prefilledtxn, i) >= i
    decreases i
  {
    if i >= 0 { PositionGrows(c, i - 1); }
  }

  /** The number of slots without a transaction. */
  function FreeCount(s: Slots): nat
    decreases |s|
  {
    if s == [] then 0 else FreeCount(s[..|s| - 1]) + if s[|s| - 1].None? then 1 else 0
  }

  lemma {:induction false} FreeEmpty(n: nat)
    ensures FreeCount(Empty(n)) == n
  {
    if n > 0 {
      assert Empty(n)[..n - 1] == Empty(n - 1);
      FreeEmpty(n - 1);
    }
  }

  lemma {:induction false} FreeSet(s: Slots, i: nat, v: Option<Tx>)
    requires i < |s|
    ensures FreeCount(s[i := v]) == FreeCount(s) - (if s[i].None? then 1 else 0) + (if v.None? then 1 else 0)
    decreases |s|
  {
    var n := |s| - 1;
    if i < n {
      assert s[i := v][..n] == s[..n][i := v];
      FreeSet(s[..n], i, v);
    } else {
      assert s[i := v][..n] == s[..n];
    }
  }

  lemma {:induction false} FreePrefix(s: Slots, i: nat)
    requires i <= |s|
    ensures FreeCount(s[..i]) <= FreeCount(s)
    ensures i < |s| ==> FreeCount(s[..i + 1]) == FreeCount(s[..i]) + if s[i].None? then 1 else 0
    decreases |s|
  {
    if i < |s| {
      var n := |s| - 1;
      assert s[..n][..i] == s[..i];
      FreePrefix(s[..n], i);
      assert s[..i + 1][..i] == s[..i];
    } else {
      assert s[..i] == s;
    }
  }

  /** Above the last placed transaction all slots are free, so as many are free as there are short ids. */
  lemma {:induction false} PlacedFree(c: CompactBlock, n: nat)
    requires Deserialized(c) && PlacedUpTo(c, n)
    ensures forall j | 0 <= j < c.BlockTxCount() && j > Position(c.prefilledtxn, n - 1) :: Placed(c, n)[j].None?
    ensures FreeCount(Placed(c, n)) == c.BlockTxCount() - n
    decreases n
  {
    PositionGrows(c, n - 1);
    if n == 0 {
      FreeEmpty(c.BlockTxCount());
    } else {
      PlacedFree(c, n - 1);
      PositionRange(c, n - 1);
      FreeSet(Placed(c, n - 1), Position(c.prefilledtxn, n - 1), Some(c.prefilledtxn[n - 1].tx));
    }
  }

  // ----- the map of short ids -----

  /** m takes the k-th short id to the k-th free slot. */
  ghost predicate IsIdMap(m: map<int, int>, ids: seq<int>, s: Slots) {
    && (forall id | id in m :: id in ids)
    && forall k | 0 <= k < |ids| ::
         && ids[k] in m && 0 <= m[ids[k]] < |s| && s[m[ids[k]]].None?
         && FreeCount(s[..m[ids[k]]]) == k
  }

  // ----- the scans -----

  /** The slots, which of them were filled by a match, and the number of matches that stand. */
  datatype Scan = Scan(slots: Slots, have: seq<bool>, count: int)

  predicate ScanOk(sc: Scan, m: map<int, int>) {
    |sc.have| == |sc.slots| && forall id | id in m :: 0 <= m[id] < |sc.slots|
  }

  /** A transaction of the pool: the first match fills its slot, a second one clears it. */
  function Offer(sc: Scan, m: map<int, int>, id: int, tx: Tx): (r: Scan)
    requires ScanOk(sc, m)
    ensures ScanOk(r, m)
  {
    if id !in m then sc
    else if !sc.have[m[id]] then Scan(sc.slots[m[id] := Some(tx)], sc.have[m[id] := true], sc.count + 1)
    else if sc.slots[m[id]].Some? then Scan(sc.slots[m[id] := None], sc.have, sc.count - 1)
    else sc
  }

  /** An extra transaction: a second match clears the slot unless it is the same transaction again. */
  function OfferExtra(sc: Scan, m: map<int, int>, id: int, tx: Tx): (r: Scan)
    requires ScanOk(sc, m)
    ensures ScanOk(r, m)
  {
    if id in m && sc.have[m[id]] && sc.slots[m[id]].Some? && sc.slots[m[id]].value.wtxid == tx.wtxid then sc
    else Offer(sc, m, id, tx)
  }

  /** All of the pool, or as much of it as it takes to match every short id. */
  function PoolScan(sc: Scan, m: map<int, int>, hash: Hasher, c: CompactBlock, txs: seq<Tx>): (r: Scan)
    requires ScanOk(sc, m)
    ensures ScanOk(r, m)
    decreases |txs|
  {
    if txs == [] then sc
    else
      var next := Offer(sc, m, ShortId(hash, c, txs[0]), txs[0]);
      if next.count == |m| then next else PoolScan(next, m, hash, c, txs[1..])
  }

  function ExtraScan(sc: Scan, m: map<int, int>, hash: Hasher, c: CompactBlock, txs: seq<Tx>): (r: Scan)
    requires ScanOk(sc, m)
    ensures ScanOk(r, m)
    decreases |txs|
  {
    if txs == [] then sc
    else
      var next := OfferExtra(sc, m, ShortId(hash, c, txs[0]), txs[0]);
      if next.count == |m| then next else ExtraScan(next, m, hash, c, txs[1..])
  }

  function Unmatched(s: Slots, count: int): Scan {
    Scan(s, seq(|s|, _ => false), count)
  }

  // ----- filling in the rest -----

  /** The transactions of the block at the slots that are still free, in order. */
  function Missing(vtx: seq<Tx>, s: Slots): (r: seq<Tx>)
    requires |vtx| == |s|
    ensures |r| == FreeCount(s)
    decreases |s|
  {
    if s == [] then []
    else
      var n := |s| - 1;
      Missing(vtx[..n], s[..n]) + if s[n].None? then [vtx[n]] else []
  }

  /** The slots' own transactions, and the given ones at the free slots, in order. */
  function Assembled(s: Slots, missing: seq<Tx>): (r: seq<Tx>)
    requires FreeCount(s) <= |missing|
    ensures |r| == |s|
    decreases |s|
  {
    if s == [] then []
    else
      var n := |s| - 1;
      Assembled(s[..n], missing) + [if s[n].None? then missing[FreeCount(s[..n])] else s[n].value]
  }

  // ----- compact forms with any prefilled transactions -----

  /** How many of the places lie below j. */
  function CountBelow(places: seq<int>, j: int): (n: nat)
    ensures n <= |places|
  {
    if places == [] then 0
    else CountBelow(places[..|places| - 1], j) + if places[|places| - 1] < j then 1 else 0
  }

  /** The indexes of the prefilled transactions, as the message carries them. */
  function Indexes(pre: seq<Prefilled>): seq<int> {
    seq(|pre|, i requires 0 <= i < |pre| => pre[i].index)
  }

  /** Rising places of a block. */
  predicate RisingPlaces(places: seq<int>, n: nat) {
    && (forall i | 0 <= i < |places| :: 0 <= places[i] < n)
    && (forall i, k | 0 <= i < k < |places| :: places[i] < places[k])
  }

  /**
    c describes the block with the transactions at the given places in full, their places written as differences,
    and the short ids of the others in order.
   */
  ghost predicate CompactAt(c: CompactBlock, block: Block, nonce: int, hash: Hasher, places: seq<int>) {
    && c.header == block.header && c.nonce == nonce
    && RisingPlaces(places, |block.vtx|) && |places| == |c.prefilledtxn|
    && Gaps(places, 0) == Some(Indexes(c.prefilledtxn))
    && (forall i | 0 <= i < |places| :: c.prefilledtxn[i].tx == block.vtx[places[i]])
    && |c.shorttxids| == |block.vtx| - |places|
    && (forall j | 0 <= j < |block.vtx| && j !in places ::
          && 0 <= j - CountBelow(places, j) < |c.shorttxids|
          && c.shorttxids[j - CountBelow(places, j)] == hash(block.header, nonce, block.vtx[j].wtxid))
  }

  function Positions(pre: seq<Prefilled>): seq<int> {
    seq(|pre|, i requires 0 <= i < |pre| => Position(pre, i))
  }

  /** The places that a receiver computes are those whose differences the message carries. */
  lemma PositionsDecode(c: CompactBlock)
    requires Deserialized(c)
    ensures Gaps(Positions(c.prefilledtxn), 0) == Some(Indexes(c.prefilledtxn))
  {
    var pre, ps := c.prefilledtxn, Positions(c.prefilledtxn);
    forall i | 0 <= i < |pre|
      ensures Indexes(pre)[i] >= 0 && ps[i] == Before(ps, 0, i) + Indexes(pre)[i] < UINT64_MAX
    {
      PositionBound(c, i);
    }
    GapsAre(ps, 0, Indexes(pre));
  }

  lemma {:induction false} PositionBound(c: CompactBlock, i: int)
    requires Deserialized(c) && -1 <= i < |c.prefilledtxn|
    ensures Position(c.prefilledtxn, i) < (i + 1) * (UINT16_MAX + 1)
    decreases i
  {
    if i >= 0 { PositionBound(c, i - 1); }
  }

  /** So a transaction that was prefilled at some place is put there. */
  lemma {:induction false} PositionIs(c: CompactBlock, places: seq<int>, i: nat)
    requires Gaps(places, 0) == Some(Indexes(c.prefilledtxn)) && i < |places| == |c.prefilledtxn|
    ensures Position(c.prefilledtxn, i) == places[i]
  {
    GapsAt(places, 0, i);
    if i > 0 { PositionIs(c, places, i - 1); }
  }
}
