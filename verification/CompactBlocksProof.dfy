/** A block comes back from its own compact form. */
module CompactBlocksProof {
  import opened CompactBlocks
  import opened CompactBlocksImpl
  import opened Differences
  import opened Prelude

  /** Short ids tell the witness hashes in play apart, and witness hashes tell the transactions apart. */
  ghost predicate Unambiguous(hash: Hasher, header: Header, nonce: int, txs: seq<Tx>) {
    && (forall a, b | a in txs && b in txs ::
          hash(header, nonce, a.wtxid) == hash(header, nonce, b.wtxid) ==> a.wtxid == b.wtxid)
    && (forall a, b | a in txs && b in txs :: a.wtxid == b.wtxid ==> a == b)
  }

  /** Every filled slot holds the block's transaction of that place. */
  ghost predicate Fits(s: Slots, vtx: seq<Tx>) {
    |s| == |vtx| && forall j | 0 <= j < |s| && s[j].Some? :: s[j].value == vtx[j]
  }

  // ----- the slots of a block's own compact form -----

  /** The form the sender makes has its first transaction prefilled. */
  lemma FirstPrefilled(c: CompactBlock, block: Block, nonce: int, hash: Hasher)
    requires IsCompactOf(c, block, nonce, hash)
    ensures CompactAt(c, block, nonce, hash, [0])
  {
    assert Indexes(c.prefilledtxn) == [0];
    GapsAre([0], 0, [0]);
    forall j | 0 <= j < |block.vtx| && j !in [0]
      ensures CountBelow([0], j) == 1
              && c.shorttxids[j - 1] == hash(block.header, nonce, block.vtx[j].wtxid)
    {
      assert c.shorttxids[j - 1] == hash(block.header, nonce, block.vtx[j - 1 + 1].wtxid);
    }
  }

  /** Such a form is never refused for its prefilled transactions. */
  lemma OwnAccepted(c: CompactBlock, block: Block, nonce: int, hash: Hasher, places: seq<int>)
    requires CompactAt(c, block, nonce, hash, places) && Deserialized(c)
    requires forall j | 0 <= j < |block.vtx| :: !block.vtx[j].isNull
    ensures PlacedUpTo(c, |c.prefilledtxn|)
  {
    hide Position, Indexes;
    forall i | 0 <= i < |places| ensures PlacedWell(c, i) {
      PositionIs(c, places, i);
      RoomAbove(places, |block.vtx|, i);
    }
  }

  lemma {:induction false} RoomAbove(places: seq<int>, n: nat, i: nat)
    requires RisingPlaces(places, n) && i < |places|
    ensures places[i] <= n - (|places| - i)
    decreases |places| - i
  {
    if i + 1 < |places| { RoomAbove(places, n, i + 1); }
  }

  /** Exactly the given places are filled, each with the block's transaction. */
  ghost predicate FilledAt(s: Slots, vtx: seq<Tx>, places: seq<int>) {
    && |s| == |vtx|
    && forall j | 0 <= j < |s| :: s[j] == if j in places then Some(vtx[j]) else None
  }

  lemma {:induction false} PlacedAt(
    c: CompactBlock, block: Block, nonce: int, hash: Hasher, places: seq<int>, n: nat)
    requires CompactAt(c, block, nonce, hash, places) && Deserialized(c) && PlacedUpTo(c, n)
    ensures FilledAt(Placed(c, n), block.vtx, places[..n])
    decreases n
  {
    hide Position, Indexes, PlacedWell, Placed, Gaps, RisingPlaces, CountBelow, FilledAt;
    if n == 0 {
      NonePlaced(c, block.vtx);
    } else {
      PlacedAt(c, block, nonce, hash, places, n - 1);
      PositionIs(c, places, n - 1);
      PositionRange(c, n - 1);
      PlacedNext(c, n);
      assert places[..n] == places[..n - 1] + [places[n - 1]];
      OneFilled(Placed(c, n - 1), block.vtx, places[..n - 1], places[n - 1]);
    }
  }

  lemma NonePlaced(c: CompactBlock, vtx: seq<Tx>)
    requires Deserialized(c) && c.BlockTxCount() == |vtx|
    ensures PlacedUpTo(c, 0) && FilledAt(Placed(c, 0), vtx, [])
  {
  }

  lemma PlacedNext(c: CompactBlock, n: nat)
    requires Deserialized(c) && 0 < n && PlacedUpTo(c, n) && 0 <= Position(c.prefilledtxn, n - 1) < c.BlockTxCount()
    ensures Placed(c, n) == Placed(c, n - 1)[Position(c.prefilledtxn, n - 1) := Some(c.prefilledtxn[n - 1].tx)]
  {
    hide PlacedWell, Position;
  }

  lemma OneFilled(s: Slots, vtx: seq<Tx>, places: seq<int>, j: int)
    requires FilledAt(s, vtx, places) && 0 <= j < |vtx|
    ensures FilledAt(s[j := Some(vtx[j])], vtx, places + [j])
  {
    forall i | 0 <= i < |s| ensures i in places + [j] <==> i in places || i == j {
    }
  }

  lemma OwnSlots(c: CompactBlock, block: Block, nonce: int, hash: Hasher, places: seq<int>)
    requires CompactAt(c, block, nonce, hash, places) && Deserialized(c) && PlacedUpTo(c, |c.prefilledtxn|)
    ensures FilledAt(Placed(c, |c.prefilledtxn|), block.vtx, places)
  {
    PlacedAt(c, block, nonce, hash, places, |places|);
    assert places[..|places|] == places;
  }

  /** Below place j as many slots are free as there are places below j that are not prefilled. */
  lemma {:induction false} FreeBelow(s: Slots, vtx: seq<Tx>, places: seq<int>, j: nat)
    requires FilledAt(s, vtx, places) && RisingPlaces(places, |vtx|) && j <= |s|
    ensures FreeCount(s[..j]) == j - CountBelow(places, j)
    decreases j
  {
    hide FreeCount;
    if j == 0 {
      NoneBelow(places, |vtx|);
      NothingFree(s);
    } else {
      FreeBelow(s, vtx, places, j - 1);
      FreePrefix(s, j - 1);
      OneMoreBelow(places, |vtx|, j - 1);
    }
  }

  lemma NothingFree(s: Slots)
    ensures FreeCount(s[..0]) == 0
  {
  }

  lemma {:induction false} NoneBelow(places: seq<int>, n: nat)
    requires RisingPlaces(places, n)
    ensures CountBelow(places, 0) == 0
    decreases |places|
  {
    if places != [] { NoneBelow(places[..|places| - 1], n); }
  }

  lemma {:induction false} OneMoreBelow(places: seq<int>, n: nat, j: int)
    requires RisingPlaces(places, n)
    ensures CountBelow(places, j + 1) == CountBelow(places, j) + if j in places then 1 else 0
    decreases |places|
  {
    if places != [] {
      var last := |places| - 1;
      OneMoreBelow(places[..last], n, j);
      assert places == places[..last] + [places[last]];
    }
  }

  /** Two free slots with as many free slots below them are one. */
  lemma FreeUnique(s: Slots, i: nat, j: nat)
    requires i < |s| && j < |s| && s[i].None? && s[j].None? && FreeCount(s[..i]) == FreeCount(s[..j])
    ensures i == j
  {
    hide FreeCount;
    if i < j {
      FreePrefix(s, i);
      assert s[..j][..i + 1] == s[..i + 1];
      FreePrefix(s[..j], i + 1);
    } else if j < i {
      FreePrefix(s, j);
      assert s[..i][..j + 1] == s[..j + 1];
      FreePrefix(s[..i], j + 1);
    }
  }

  /** The short id of each transaction that is not prefilled leads to that transaction's slot. */
  ghost predicate OwnMap(m: map<int, int>, block: Block, nonce: int, hash: Hasher, places: seq<int>) {
    && (forall j | 0 <= j < |block.vtx| && j !in places ::
          hash(block.header, nonce, block.vtx[j].wtxid) in m && m[hash(block.header, nonce, block.vtx[j].wtxid)] == j)
    && (forall id | id in m ::
          0 <= m[id] < |block.vtx| && m[id] !in places && id == hash(block.header, nonce, block.vtx[m[id]].wtxid))
  }

  lemma OwnIdMap(c: CompactBlock, block: Block, nonce: int, hash: Hasher, places: seq<int>, m: map<int, int>)
    requires CompactAt(c, block, nonce, hash, places) && Deserialized(c) && PlacedUpTo(c, |c.prefilledtxn|)
    requires IsIdMap(m, c.shorttxids, Placed(c, |c.prefilledtxn|))
    ensures OwnMap(m, block, nonce, hash, places)
  {
    hide FreeCount, Placed, PlacedUpTo, CountBelow, Gaps, Indexes, RisingPlaces, IsIdMap;
    var s := Placed(c, |c.prefilledtxn|);
    OwnSlots(c, block, nonce, hash, places);
    forall id | id in m
      ensures 0 <= m[id] < |block.vtx| && m[id] !in places && id == hash(block.header, nonce, block.vtx[m[id]].wtxid)
    {
      IdLeads(c, block, nonce, hash, places, m, s, id);
    }
    forall j | 0 <= j < |block.vtx| && j !in places
      ensures hash(block.header, nonce, block.vtx[j].wtxid) in m
              && m[hash(block.header, nonce, block.vtx[j].wtxid)] == j
    {
      PlaceIsLed(c, block, nonce, hash, places, m, s, j);
    }
  }

  lemma IdLeads(
    c: CompactBlock, block: Block, nonce: int, hash: Hasher, places: seq<int>, m: map<int, int>, s: Slots, id: int)
    requires CompactAt(c, block, nonce, hash, places) && FilledAt(s, block.vtx, places)
    requires IsIdMap(m, c.shorttxids, s) && id in m
    ensures 0 <= m[id] < |block.vtx| && m[id] !in places && id == hash(block.header, nonce, block.vtx[m[id]].wtxid)
  {
    hide FreeCount, CompactAt, FilledAt, IsIdMap;
    var k := IdAt(m, c.shorttxids, s, id);
    CompactParts(c, block, nonce, hash, places);
    NotFilled(s, block.vtx, places, m[id]);
    FreeBelow(s, block.vtx, places, m[id]);
    CompactId(c, block, nonce, hash, places, m[id]);
  }

  lemma IdAt(m: map<int, int>, ids: seq<int>, s: Slots, id: int) returns (k: nat)
    requires IsIdMap(m, ids, s) && id in m
    ensures k < |ids| && ids[k] == id && 0 <= m[id] < |s| && s[m[id]].None? && FreeCount(s[..m[id]]) == k
  {
    hide FreeCount;
    k :| 0 <= k < |ids| && ids[k] == id;
  }

  lemma CompactParts(c: CompactBlock, block: Block, nonce: int, hash: Hasher, places: seq<int>)
    requires CompactAt(c, block, nonce, hash, places)
    ensures RisingPlaces(places, |block.vtx|)
  {
  }

  lemma NotFilled(s: Slots, vtx: seq<Tx>, places: seq<int>, j: nat)
    requires FilledAt(s, vtx, places) && j < |s|
    ensures |s| == |vtx| && (s[j].None? <==> j !in places)
  {
  }

  lemma CompactId(c: CompactBlock, block: Block, nonce: int, hash: Hasher, places: seq<int>, j: nat)
    requires CompactAt(c, block, nonce, hash, places) && j < |block.vtx| && j !in places
    ensures 0 <= j - CountBelow(places, j) < |c.shorttxids|
    ensures c.shorttxids[j - CountBelow(places, j)] == hash(block.header, nonce, block.vtx[j].wtxid)
  {
    hide CountBelow, Gaps, Indexes, RisingPlaces;
  }

  lemma PlaceIsLed(
    c: CompactBlock, block: Block, nonce: int, hash: Hasher, places: seq<int>, m: map<int, int>, s: Slots, j: nat)
    requires CompactAt(c, block, nonce, hash, places) && FilledAt(s, block.vtx, places)
    requires IsIdMap(m, c.shorttxids, s) && j < |block.vtx| && j !in places
    ensures hash(block.header, nonce, block.vtx[j].wtxid) in m
    ensures m[hash(block.header, nonce, block.vtx[j].wtxid)] == j
  {
    hide FreeCount, CompactAt, FilledAt, IsIdMap;
    CompactParts(c, block, nonce, hash, places);
    SameLength(s, block.vtx, places);
    NotFilled(s, block.vtx, places, j);
    CompactId(c, block, nonce, hash, places, j);
    var k := j - CountBelow(places, j);
    IdMapped(m, c.shorttxids, s, k);
    FreeBelow(s, block.vtx, places, j);
    FreeUnique(s, m[c.shorttxids[k]], j);
  }

  lemma SameLength(s: Slots, vtx: seq<Tx>, places: seq<int>)
    requires FilledAt(s, vtx, places)
    ensures |s| == |vtx|
  {
  }

  lemma IdMapped(m: map<int, int>, ids: seq<int>, s: Slots, k: nat)
    requires IsIdMap(m, ids, s) && k < |ids|
    ensures ids[k] in m && 0 <= m[ids[k]] < |s| && s[m[ids[k]]].None? && FreeCount(s[..m[ids[k]]]) == k
  {
    hide FreeCount;
  }

  // ----- every match is the right one -----

  /** A transaction that a short id leads to a slot for is the block's transaction there. */
  lemma MatchIsRight(
    block: Block, nonce: int, hash: Hasher, places: seq<int>, m: map<int, int>, txs: seq<Tx>, tx: Tx)
    requires OwnMap(m, block, nonce, hash, places) && Unambiguous(hash, block.header, nonce, txs)
    requires tx in txs && forall j | 0 <= j < |block.vtx| :: block.vtx[j] in txs
    requires hash(block.header, nonce, tx.wtxid) in m
    ensures 0 <= m[hash(block.header, nonce, tx.wtxid)] < |block.vtx|
    ensures m[hash(block.header, nonce, tx.wtxid)] !in places
    ensures block.vtx[m[hash(block.header, nonce, tx.wtxid)]] == tx
  {
    var id := hash(block.header, nonce, tx.wtxid);
    assert id == hash(block.header, nonce, block.vtx[m[id]].wtxid);
  }

  /** All that the receiver may hold against the short ids of a block. */
  ghost predicate Setting(
    c: CompactBlock, block: Block, nonce: int, hash: Hasher, places: seq<int>, m: map<int, int>, txs: seq<Tx>)
  {
    && c.header == block.header && c.nonce == nonce
    && OwnMap(m, block, nonce, hash, places) && Unambiguous(hash, block.header, nonce, txs)
    && forall j | 0 <= j < |block.vtx| :: block.vtx[j] in txs
  }

  lemma OfferFits(
    c: CompactBlock, block: Block, nonce: int, hash: Hasher, places: seq<int>, m: map<int, int>, txs: seq<Tx>,
    sc: Scan, tx: Tx)
    requires Setting(c, block, nonce, hash, places, m, txs) && ScanOk(sc, m) && Fits(sc.slots, block.vtx) && tx in txs
    ensures Fits(Offer(sc, m, ShortId(hash, c, tx), tx).slots, block.vtx)
    ensures Fits(OfferExtra(sc, m, ShortId(hash, c, tx), tx).slots, block.vtx)
  {
    hide OwnMap, Unambiguous;
    if ShortId(hash, c, tx) in m { MatchIsRight(block, nonce, hash, places, m, txs, tx); }
  }

  lemma {:induction false} PoolFits(
    c: CompactBlock, block: Block, nonce: int, hash: Hasher, places: seq<int>, m: map<int, int>, txs: seq<Tx>,
    sc: Scan, pool: seq<Tx>)
    requires Setting(c, block, nonce, hash, places, m, txs) && ScanOk(sc, m) && Fits(sc.slots, block.vtx)
    requires forall k | 0 <= k < |pool| :: pool[k] in txs
    ensures Fits(PoolScan(sc, m, hash, c, pool).slots, block.vtx)
    decreases |pool|
  {
    hide Setting, Fits;
    if pool != [] {
      OfferFits(c, block, nonce, hash, places, m, txs, sc, pool[0]);
      PoolFits(c, block, nonce, hash, places, m, txs, Offer(sc, m, ShortId(hash, c, pool[0]), pool[0]), pool[1..]);
    }
  }

  lemma {:induction false} ExtraFits(
    c: CompactBlock, block: Block, nonce: int, hash: Hasher, places: seq<int>, m: map<int, int>, txs: seq<Tx>,
    sc: Scan, extra: seq<Tx>)
    requires Setting(c, block, nonce, hash, places, m, txs) && ScanOk(sc, m) && Fits(sc.slots, block.vtx)
    requires forall k | 0 <= k < |extra| :: extra[k] in txs
    ensures Fits(ExtraScan(sc, m, hash, c, extra).slots, block.vtx)
    decreases |extra|
  {
    hide Setting, Fits;
    if extra != [] {
      OfferFits(c, block, nonce, hash, places, m, txs, sc, extra[0]);
      var next := OfferExtra(sc, m, ShortId(hash, c, extra[0]), extra[0]);
      ExtraFits(c, block, nonce, hash, places, m, txs, next, extra[1..]);
    }
  }

  // ----- assembling -----

  lemma {:induction false} AssembledPrefix(s: Slots, missing: seq<Tx>, more: seq<Tx>)
    requires FreeCount(s) <= |missing|
    ensures Assembled(s, missing + more) == Assembled(s, missing)
    decreases |s|
  {
    if s != [] { AssembledPrefix(s[..|s| - 1], missing, more); }
  }

  /** With exactly the missing transactions, in order, the slots give the block back. */
  lemma {:induction false} AssembledBack(s: Slots, vtx: seq<Tx>)
    requires Fits(s, vtx)
    ensures Assembled(s, Missing(vtx, s)) == vtx
    decreases |s|
  {
    if s != [] {
      var n := |s| - 1;
      AssembledBack(s[..n], vtx[..n]);
      AssembledPrefix(s[..n], Missing(vtx[..n], s[..n]), if s[n].None? then [vtx[n]] else []);
      assert vtx == vtx[..n] + [vtx[n]];
    }
  }

  /**
   * Whenever InitData accepts a compact form of a block, whichever of its transactions are prefilled, those at
   * exactly the unavailable places, in order, complete the slots to the block's transaction list.
   */
  lemma Reassembles(
    c: CompactBlock, block: Block, nonce: int, hash: Hasher, places: seq<int>, pool: seq<Tx>, extra: seq<Tx>,
    count: int, m: map<int, int>, slots: Slots)
    requires CompactAt(c, block, nonce, hash, places) && Deserialized(c) && PlacedUpTo(c, |c.prefilledtxn|)
    requires Unambiguous(hash, block.header, nonce, block.vtx + pool + extra)
    requires Received(c, pool, extra, hash, count, m, slots)
    ensures |slots| == |block.vtx|
    ensures forall j | 0 <= j < |slots| && slots[j].Some? :: slots[j].value == block.vtx[j]
    ensures Assembled(slots, Missing(block.vtx, slots)) == block.vtx
  {
    hide FreeCount, Placed, IsIdMap, PoolScan, ExtraScan, Assembled, OwnMap, Unambiguous, PlacedUpTo;
    OwnSlots(c, block, nonce, hash, places);
    OwnIdMap(c, block, nonce, hash, places, m);
    var txs := block.vtx + pool + extra;
    var start := Unmatched(Placed(c, |c.prefilledtxn|), count);
    PoolFits(c, block, nonce, hash, places, m, txs, start, pool);
    ExtraFits(c, block, nonce, hash, places, m, txs, PoolScan(start, m, hash, c, pool), extra);
    AssembledBack(slots, block.vtx);
  }

  // ----- what is available -----

  /** The scan has filled exactly the slots of the block's transactions it has seen, and counted them. */
  ghost predicate Tracked(sc: Scan, vtx: seq<Tx>, places: seq<int>, seen: seq<Tx>) {
    && Fits(sc.slots, vtx) && |sc.have| == |vtx|
    && (forall j | 0 <= j < |vtx| && j in places :: sc.slots[j].Some? && !sc.have[j])
    && (forall j | 0 <= j < |vtx| && j !in places :: sc.have[j] <==> vtx[j] in seen)
    && (forall j | 0 <= j < |vtx| && j !in places :: sc.slots[j].Some? <==> sc.have[j])
    && sc.count == |vtx| - |places| - FreeCount(sc.slots)
  }

  /** A transaction offered again is left alone by the extra scan; a new one is filled in by either scan. */
  lemma OfferTracks(
    c: CompactBlock, block: Block, nonce: int, hash: Hasher, places: seq<int>, m: map<int, int>, txs: seq<Tx>,
    sc: Scan, seen: seq<Tx>, tx: Tx)
    requires Setting(c, block, nonce, hash, places, m, txs) && ScanOk(sc, m) && tx in txs
    requires Tracked(sc, block.vtx, places, seen)
    ensures tx !in seen ==> Tracked(Offer(sc, m, ShortId(hash, c, tx), tx), block.vtx, places, seen + [tx])
    ensures Tracked(OfferExtra(sc, m, ShortId(hash, c, tx), tx), block.vtx, places, seen + [tx])
  {
    hide Unambiguous, FreeCount;
    var id := ShortId(hash, c, tx);
    if id in m {
      hide OwnMap;
      MatchIsRight(block, nonce, hash, places, m, txs, tx);
      SlotIsOnly(c, block, nonce, hash, places, m, tx);
      FreeSet(sc.slots, m[id], Some(tx));
    } else {
      NotInBlock(c, block, nonce, hash, places, m, tx);
    }
  }

  lemma SlotIsOnly(c: CompactBlock, block: Block, nonce: int, hash: Hasher, places: seq<int>, m: map<int, int>, tx: Tx)
    requires c.header == block.header && c.nonce == nonce && OwnMap(m, block, nonce, hash, places)
    requires ShortId(hash, c, tx) in m
    ensures forall j | 0 <= j < |block.vtx| && j !in places && block.vtx[j] == tx :: j == m[ShortId(hash, c, tx)]
  {
  }

  lemma NotInBlock(c: CompactBlock, block: Block, nonce: int, hash: Hasher, places: seq<int>, m: map<int, int>, tx: Tx)
    requires c.header == block.header && c.nonce == nonce && OwnMap(m, block, nonce, hash, places)
    requires ShortId(hash, c, tx) !in m
    ensures forall j | 0 <= j < |block.vtx| && j !in places :: block.vtx[j] != tx
  {
  }

  ghost predicate NoRepeats(txs: seq<Tx>) {
    forall i, k | 0 <= i < k < |txs| :: txs[i] != txs[k]
  }

  /** The pool scan follows the pool, at least until every short id is matched. */
  lemma {:induction false} PoolTracks(
    c: CompactBlock, block: Block, nonce: int, hash: Hasher, places: seq<int>, m: map<int, int>, txs: seq<Tx>,
    sc: Scan, seen: seq<Tx>, pool: seq<Tx>) returns (n: nat)
    requires Setting(c, block, nonce, hash, places, m, txs) && ScanOk(sc, m) && Tracked(sc, block.vtx, places, seen)
    requires forall k | 0 <= k < |pool| :: pool[k] in txs
    requires NoRepeats(seen + pool)
    ensures n <= |pool| && Tracked(PoolScan(sc, m, hash, c, pool), block.vtx, places, seen + pool[..n])
    ensures n < |pool| ==> PoolScan(sc, m, hash, c, pool).count == |m|
    decreases |pool|
  {
    hide Setting, Tracked, NoRepeats, Offer, ScanOk, ShortId;
    if pool == [] {
      n := 0;
      assert seen + pool[..0] == seen;
    } else {
      assert pool[0] !in seen by { NewOne(seen, pool); }
      OfferTracks(c, block, nonce, hash, places, m, txs, sc, seen, pool[0]);
      var next := Offer(sc, m, ShortId(hash, c, pool[0]), pool[0]);
      if next.count == |m| {
        n := 1;
        assert seen + pool[..1] == seen + [pool[0]];
      } else {
        assert seen + [pool[0]] + pool[1..] == seen + pool;
        var k := PoolTracks(c, block, nonce, hash, places, m, txs, next, seen + [pool[0]], pool[1..]);
        n := k + 1;
        assert seen + [pool[0]] + pool[1..][..k] == seen + pool[..n];
      }
    }
  }

  lemma NewOne(seen: seq<Tx>, pool: seq<Tx>)
    requires NoRepeats(seen + pool) && pool != []
    ensures pool[0] !in seen
  {
    var all := seen + pool;
    assert all[|seen|] == pool[0];
    assert forall i | 0 <= i < |seen| :: all[i] == seen[i];
  }

  lemma {:induction false} ExtraTracks(
    c: CompactBlock, block: Block, nonce: int, hash: Hasher, places: seq<int>, m: map<int, int>, txs: seq<Tx>,
    sc: Scan, seen: seq<Tx>, extra: seq<Tx>) returns (n: nat)
    requires Setting(c, block, nonce, hash, places, m, txs) && ScanOk(sc, m) && Tracked(sc, block.vtx, places, seen)
    requires forall k | 0 <= k < |extra| :: extra[k] in txs
    ensures n <= |extra| && Tracked(ExtraScan(sc, m, hash, c, extra), block.vtx, places, seen + extra[..n])
    ensures n < |extra| ==> ExtraScan(sc, m, hash, c, extra).count == |m|
    decreases |extra|
  {
    hide Setting, Tracked, OfferExtra, ScanOk, ShortId;
    if extra == [] {
      n := 0;
      assert seen + extra[..0] == seen;
    } else {
      OfferTracks(c, block, nonce, hash, places, m, txs, sc, seen, extra[0]);
      var next := OfferExtra(sc, m, ShortId(hash, c, extra[0]), extra[0]);
      if next.count == |m| {
        n := 1;
        assert seen + extra[..1] == seen + [extra[0]];
      } else {
        var k := ExtraTracks(c, block, nonce, hash, places, m, txs, next, seen + [extra[0]], extra[1..]);
        n := k + 1;
        assert seen + [extra[0]] + extra[1..][..k] == seen + extra[..n];
      }
    }
  }

  /** When the count reaches the number of short ids, every transaction of the block was seen. */
  lemma AllSeen(sc: Scan, vtx: seq<Tx>, places: seq<int>, seen: seq<Tx>)
    requires Tracked(sc, vtx, places, seen) && sc.count == |vtx| - |places|
    ensures forall j | 0 <= j < |vtx| && j !in places :: vtx[j] in seen
  {
    hide FreeCount;
    forall j | 0 <= j < |vtx| ensures sc.slots[j].Some? {
      FreePrefix(sc.slots, j);
      FreePrefix(sc.slots, j + 1);
    }
  }

  lemma StartTracked(s: Slots, vtx: seq<Tx>, places: seq<int>)
    requires FilledAt(s, vtx, places) && FreeCount(s) == |vtx| - |places|
    ensures Tracked(Unmatched(s, 0), vtx, places, [])
  {
    hide FreeCount;
  }

  /**
   * After a first InitData on a compact form of a block a place is available exactly when it is prefilled or its
   * transaction is in the pool or among the extra ones: nothing the receiver has is asked for again.
   */
  lemma AvailableIffKnown(
    c: CompactBlock, block: Block, nonce: int, hash: Hasher, places: seq<int>, pool: seq<Tx>, extra: seq<Tx>,
    m: map<int, int>, slots: Slots, j: nat)
    requires CompactAt(c, block, nonce, hash, places) && Deserialized(c) && PlacedUpTo(c, |c.prefilledtxn|)
    requires Unambiguous(hash, block.header, nonce, block.vtx + pool + extra) && NoRepeats(pool)
    requires Received(c, pool, extra, hash, 0, m, slots) && j < |block.vtx|
    ensures |slots| == |block.vtx|
    ensures slots[j].Some? <==> j in places || block.vtx[j] in pool || block.vtx[j] in extra
  {
    hide FreeCount, Placed, IsIdMap, PoolScan, ExtraScan, OwnMap, Unambiguous, PlacedUpTo, NoRepeats, FilledAt, Gaps,
         RisingPlaces, CountBelow;
    var s := Placed(c, |c.prefilledtxn|);
    OwnSlots(c, block, nonce, hash, places);
    OwnIdMap(c, block, nonce, hash, places, m);
    PlacedFree(c, |c.prefilledtxn|);
    StartTracked(s, block.vtx, places);
    var txs := block.vtx + pool + extra;
    var start := Unmatched(s, 0);
    assert [] + pool == pool;
    var n := PoolTracks(c, block, nonce, hash, places, m, txs, start, [], pool);
    var mid := PoolScan(start, m, hash, c, pool);
    var seen := [] + pool[..n];
    var k := ExtraTracks(c, block, nonce, hash, places, m, txs, mid, seen, extra);
    var end := ExtraScan(mid, m, hash, c, extra);
    if n < |pool| { AllSeen(mid, block.vtx, places, seen); }
    if k < |extra| { AllSeen(end, block.vtx, places, seen + extra[..k]); }
  }
}
