/** The receiver's side of compact blocks, as it updates its slots in place. */
module CompactBlocksImpl {
  import opened CompactBlocks
  import opened Prelude

  class PartiallyDownloadedBlock {
    var txnAvailable: Slots
    var prefilledCount: nat
    var mempoolCount: int
    var header: Header
    const pool: seq<Tx>

    constructor (poolIn: seq<Tx>)
      ensures header == NULL_HEADER && txnAvailable == [] && mempoolCount == 0 && pool == poolIn
    {
      txnAvailable, prefilledCount, mempoolCount, header, pool := [], 0, 0, NULL_HEADER, poolIn;
    }

    /** Places the prefilled transactions; n is how many were placed. */
    method Prefill(c: CompactBlock) returns (ok: bool, ghost n: nat)
      requires Deserialized(c) && txnAvailable == Empty(c.BlockTxCount())
      modifies this`txnAvailable
      ensures PlacedUpTo(c, n) && txnAvailable == Placed(c, n)
      ensures ok <==> n == |c.prefilledtxn|
      ensures !ok ==> n < |c.prefilledtxn| && !PlacedWell(c, n)
    {
      var last: int := -1;
      var i := 0;
      n := 0;
      while i < |c.prefilledtxn|
        invariant 0 <= i <= |c.prefilledtxn| && n == i && PlacedUpTo(c, i) && txnAvailable == Placed(c, i)
        invariant last == Position(c.prefilledtxn, i - 1)
      {
        if c.prefilledtxn[i].tx.isNull { return false, i; }
        last := last + c.prefilledtxn[i].index + 1;
        if last > UINT16_MAX { return false, i; }
        if last > |c.shorttxids| + i { return false, i; }
        PositionRange(c, i);
        txnAvailable := txnAvailable[last := Some(c.prefilledtxn[i].tx)];
        i, n := i + 1, i + 1;
      }
      ok := true;
    }

    /** Takes each short id to its slot; crowded(i) is the test of a hash bucket's size after the i-th id. */
    method MapShortIds(c: CompactBlock, crowded: nat -> bool) returns (ok: bool, m: map<int, int>)
      requires Deserialized(c) && PlacedUpTo(c, |c.prefilledtxn|) && txnAvailable == Placed(c, |c.prefilledtxn|)
      ensures ok ==> IsIdMap(m, c.shorttxids, txnAvailable) && |m| == |c.shorttxids|
      ensures ok <==> Distinct(c.shorttxids) && forall i | 0 <= i < |c.shorttxids| :: !crowded(i)
    {
      hide FreeCount, Placed, PlacedWell, MapsTo, SlotsInOrder, IsIdMap, Distinct;
      ghost var slots: seq<int> := [];
      PlacedFree(c, |c.prefilledtxn|);
      NoIds(txnAvailable);
      m := map[];
      var offset, i := 0, 0;
      while i < |c.shorttxids|
        invariant 0 <= i <= |c.shorttxids| && 0 <= offset && i + offset <= |txnAvailable|
        invariant FreeCount(txnAvailable[..i + offset]) == i && forall k | 0 <= k < i :: !crowded(k)
        invariant |slots| == i && MapsTo(m, c.shorttxids[..i], slots) && SlotsInOrder(txnAvailable, slots)
      {
        offset := SkipFilled(i, offset);
        assert i + offset <= UINT16_MAX;
        FreePrefix(txnAvailable, i + offset);
        MapsMore(m, c.shorttxids, slots, i, i + offset);
        OrderMore(txnAvailable, slots, i + offset);
        m := m[c.shorttxids[i] := i + offset];
        slots := slots + [i + offset];
        if crowded(i) { return false, m; }
        i := i + 1;
      }
      assert c.shorttxids[..i] == c.shorttxids;
      MapSize(m, c.shorttxids, slots);
      ok := |m| == |c.shorttxids|;
      if ok { MapIsIdMap(m, c.shorttxids, slots, txnAvailable); }
    }

    /** Moves on to the next free slot, which there is. */
    method SkipFilled(i: nat, from: nat) returns (offset: nat)
      requires i + from <= |txnAvailable| && FreeCount(txnAvailable[..i + from]) == i < FreeCount(txnAvailable)
      ensures from <= offset && i + offset < |txnAvailable| && txnAvailable[i + offset].None?
      ensures FreeCount(txnAvailable[..i + offset]) == i
    {
      hide FreeCount;
      offset := from;
      NextFree(txnAvailable, i, i + offset);
      while txnAvailable[i + offset].Some?
        invariant from <= offset && i + offset < |txnAvailable| && FreeCount(txnAvailable[..i + offset]) == i
        decreases |txnAvailable| - offset
      {
        FreePrefix(txnAvailable, i + offset);
        NextFree(txnAvailable, i, i + offset + 1);
        offset := offset + 1;
      }
    }

    method ScanPool(c: CompactBlock, m: map<int, int>, hash: Hasher, have0: seq<bool>) returns (have: seq<bool>)
      requires ScanOk(Scan(txnAvailable, have0, mempoolCount), m)
      modifies this`txnAvailable, this`mempoolCount
      ensures Scan(txnAvailable, have, mempoolCount) ==
              PoolScan(old(Scan(txnAvailable, have0, mempoolCount)), m, hash, c, pool)
    {
      have := have0;
      ghost var start := Scan(txnAvailable, have, mempoolCount);
      var i := 0;
      while i < |pool|
        invariant 0 <= i <= |pool| && ScanOk(Scan(txnAvailable, have, mempoolCount), m)
        invariant PoolScan(Scan(txnAvailable, have, mempoolCount), m, hash, c, pool[i..]) ==
                  PoolScan(start, m, hash, c, pool)
      {
        assert pool[i..][1..] == pool[i + 1..];
        have := Match(m, ShortId(hash, c, pool[i]), pool[i], have);
        if mempoolCount == |m| { return; }
        i := i + 1;
      }
    }

    /** One match: fill the slot, or clear it if it was filled before. */
    method Match(m: map<int, int>, id: int, tx: Tx, have0: seq<bool>) returns (have: seq<bool>)
      requires ScanOk(Scan(txnAvailable, have0, mempoolCount), m)
      modifies this`txnAvailable, this`mempoolCount
      ensures Scan(txnAvailable, have, mempoolCount) == Offer(old(Scan(txnAvailable, have0, mempoolCount)), m, id, tx)
    {
      have := have0;
      if id in m {
        var slot := m[id];
        if !have[slot] {
          txnAvailable := txnAvailable[slot := Some(tx)];
          have := have[slot := true];
          mempoolCount := mempoolCount + 1;
        } else if txnAvailable[slot].Some? {
          txnAvailable := txnAvailable[slot := None];
          mempoolCount := mempoolCount - 1;
        }
      }
    }

    method ScanExtra(c: CompactBlock, m: map<int, int>, hash: Hasher, have0: seq<bool>, extra: seq<Tx>)
      returns (have: seq<bool>)
      requires ScanOk(Scan(txnAvailable, have0, mempoolCount), m)
      modifies this`txnAvailable, this`mempoolCount
      ensures Scan(txnAvailable, have, mempoolCount) ==
              ExtraScan(old(Scan(txnAvailable, have0, mempoolCount)), m, hash, c, extra)
    {
      have := have0;
      ghost var start := Scan(txnAvailable, have, mempoolCount);
      var i := 0;
      while i < |extra|
        invariant 0 <= i <= |extra| && ScanOk(Scan(txnAvailable, have, mempoolCount), m)
        invariant ExtraScan(Scan(txnAvailable, have, mempoolCount), m, hash, c, extra[i..]) ==
                  ExtraScan(start, m, hash, c, extra)
      {
        assert extra[i..][1..] == extra[i + 1..];
        have := MatchExtra(m, ShortId(hash, c, extra[i]), extra[i], have);
        if mempoolCount == |m| { return; }
        i := i + 1;
      }
    }

    method MatchExtra(m: map<int, int>, id: int, tx: Tx, have0: seq<bool>) returns (have: seq<bool>)
      requires ScanOk(Scan(txnAvailable, have0, mempoolCount), m)
      modifies this`txnAvailable, this`mempoolCount
      ensures Scan(txnAvailable, have, mempoolCount) ==
              OfferExtra(old(Scan(txnAvailable, have0, mempoolCount)), m, id, tx)
    {
      have := have0;
      if id in m {
        var slot := m[id];
        if !have[slot] {
          txnAvailable := txnAvailable[slot := Some(tx)];
          have := have[slot := true];
          mempoolCount := mempoolCount + 1;
        } else if txnAvailable[slot].Some? && txnAvailable[slot].value.wtxid != tx.wtxid {
          txnAvailable := txnAvailable[slot := None];
          mempoolCount := mempoolCount - 1;
        }
      }
    }

    /** The whole of InitData. n counts the prefilled transactions placed, m is the map of short ids. */
    method InitData(c: CompactBlock, extra: seq<Tx>, hash: Hasher, crowded: nat -> bool)
      returns (status: ReadStatus, ghost n: nat, ghost m: map<int, int>)
      requires Deserialized(c)
      modifies this
      ensures Refused(c, old(header), old(txnAvailable)) ==>
                status == Invalid && header == old(header) && txnAvailable == old(txnAvailable)
      ensures !Refused(c, old(header), old(txnAvailable)) ==> header == c.header && PlacedUpTo(c, n)
      ensures !Refused(c, old(header), old(txnAvailable)) ==>
                match status
                case Invalid => n < |c.prefilledtxn| && !PlacedWell(c, n) && txnAvailable == Placed(c, n)
                case Failed =>
                  && n == |c.prefilledtxn| && txnAvailable == Placed(c, n)
                  && ((exists i :: 0 <= i < |c.shorttxids| && crowded(i)) || !Distinct(c.shorttxids))
                case Ok =>
                  && n == |c.prefilledtxn| && Received(c, pool, extra, hash, old(mempoolCount), m, txnAvailable)
                  && (forall i | 0 <= i < |c.shorttxids| :: !crowded(i)) && Distinct(c.shorttxids)
    {
      hide FreeCount, Placed, PlacedWell, IsIdMap, PoolScan, ExtraScan, Distinct;
      n, m := 0, map[];
      if c.header.IsNull() || (c.shorttxids == [] && c.prefilledtxn == [])
         || c.BlockTxCount() > MAX_BLOCK_WEIGHT / MIN_SERIALIZABLE_TRANSACTION_WEIGHT
      {
        return Invalid, n, m;
      }
      if !header.IsNull() || txnAvailable != [] { return Invalid, n, m; }
      header := c.header;
      txnAvailable := Empty(c.BlockTxCount());
      var ok;
      ok, n := Prefill(c);
      if !ok { return Invalid, n, m; }
      prefilledCount := |c.prefilledtxn|;
      var ids;
      ok, ids := MapShortIds(c, crowded);
      m := ids;
      if !ok { return Failed, n, m; }
      IdMapRange(ids, c.shorttxids, txnAvailable);
      var have := seq(|txnAvailable|, _ => false);
      have := ScanPool(c, ids, hash, have);
      have := ScanExtra(c, ids, hash, have, extra);
      status := Ok;
    }

    method IsTxAvailable(index: nat) returns (r: bool)
      requires header.IsNull() || index < |txnAvailable|
      ensures r <==> !header.IsNull() && txnAvailable[index].Some?
    {
      if header.IsNull() { return false; }
      return txnAvailable[index].Some?;
    }

    /** mutated is the check of the assembled block. */
    method FillBlock(missing: seq<Tx>, mutated: Block -> bool) returns (status: ReadStatus, block: Block)
      modifies this
      ensures old(header).IsNull() ==> status == Invalid && header == old(header) && txnAvailable == old(txnAvailable)
      ensures !old(header).IsNull() && FreeCount(old(txnAvailable)) > |missing| ==>
                && status == Invalid && header == old(header)
                && exists stop :: MovedOut(old(txnAvailable), txnAvailable, stop, |missing|)
      ensures !old(header).IsNull() && FreeCount(old(txnAvailable)) <= |missing| ==>
                && header == NULL_HEADER && txnAvailable == []
                && block == Block(old(header), Assembled(old(txnAvailable), missing))
                && status == if |missing| != FreeCount(old(txnAvailable)) then Invalid
                             else if mutated(block) then Failed else Ok
    {
      hide FreeCount, Assembled;
      block := Block(header, []);
      if header.IsNull() { return Invalid, block; }
      ghost var s := txnAvailable;
      NothingAssembled(s, missing);
      var vtx, offset, i := [], 0, 0;
      while i < |txnAvailable|
        invariant 0 <= i <= |txnAvailable| == |s| && (forall k | i <= k < |s| :: txnAvailable[k] == s[k])
        invariant forall k | 0 <= k < i :: txnAvailable[k].None?
        invariant offset == FreeCount(s[..i]) <= |missing| && vtx == Assembled(s[..i], missing)
        modifies this`txnAvailable
      {
        FreePrefix(s, i);
        FreePrefix(s, i + 1);
        if txnAvailable[i].None? {
          if offset >= |missing| {
            assert MovedOut(s, txnAvailable, i, |missing|);
            return Invalid, block.(vtx := vtx);
          }
          AssembledMore(s, missing, i);
          vtx := vtx + [missing[offset]];
          offset := offset + 1;
        } else {
          AssembledMore(s, missing, i);
          vtx := vtx + [txnAvailable[i].value];
          txnAvailable := txnAvailable[i := None];
        }
        i := i + 1;
      }
      assert s[..i] == s;
      block := block.(vtx := vtx);
      header := NULL_HEADER;
      txnAvailable := [];
      if |missing| != offset { return Invalid, block; }
      status := if mutated(block) then Failed else Ok;
    }
  }

  /** All transactions before place stop, the first that none of the given ones is left for, were moved out. */
  ghost predicate MovedOut(s: Slots, t: Slots, stop: int, given: nat) {
    && |t| == |s| && 0 <= stop < |s| && s[stop].None? && FreeCount(s[..stop]) == given
    && (forall k | 0 <= k < stop :: t[k].None?)
    && (forall k | stop <= k < |s| :: t[k] == s[k])
  }

  lemma NothingAssembled(s: Slots, missing: seq<Tx>)
    ensures FreeCount(s[..0]) == 0 && Assembled(s[..0], missing) == []
  {
  }

  lemma AssembledMore(s: Slots, missing: seq<Tx>, i: nat)
    requires i < |s| && FreeCount(s[..i + 1]) <= |missing|
    ensures FreeCount(s[..i + 1]) == FreeCount(s[..i]) + if s[i].None? then 1 else 0
    ensures Assembled(s[..i + 1], missing) ==
            Assembled(s[..i], missing) + [if s[i].None? then missing[FreeCount(s[..i])] else s[i].value]
  {
    assert s[..i + 1][..i] == s[..i];
  }

  /** The messages that InitData turns away before it looks at their transactions. */
  predicate Refused(c: CompactBlock, header: Header, slots: Slots) {
    || c.header.IsNull() || (c.shorttxids == [] && c.prefilledtxn == [])
    || c.BlockTxCount() > MAX_BLOCK_WEIGHT / MIN_SERIALIZABLE_TRANSACTION_WEIGHT
    || !header.IsNull() || slots != []
  }

  /** The slots after a successful InitData: those prefilled, with both scans on top. */
  ghost predicate Received(
    c: CompactBlock, pool: seq<Tx>, extra: seq<Tx>, hash: Hasher, count: int, m: map<int, int>, slots: Slots)
    requires Deserialized(c) && PlacedUpTo(c, |c.prefilledtxn|)
  {
    var placed := Placed(c, |c.prefilledtxn|);
    && IsIdMap(m, c.shorttxids, placed) && |m| == |c.shorttxids|
    && ScanOk(Unmatched(placed, count), m)
    && slots == ExtraScan(PoolScan(Unmatched(placed, count), m, hash, c, pool), m, hash, c, extra).slots
  }

  lemma IdMapRange(m: map<int, int>, ids: seq<int>, s: Slots)
    requires IsIdMap(m, ids, s)
    ensures forall id | id in m :: 0 <= m[id] < |s|
  {
    forall id | id in m ensures 0 <= m[id] < |s| {
      var k :| 0 <= k < |ids| && ids[k] == id;
    }
  }

  // ----- facts behind the map of short ids -----

  /** While fewer slots were passed than are free, there is another slot to look at. */
  lemma NextFree(s: Slots, i: nat, at: nat)
    requires at <= |s| && FreeCount(s[..at]) == i < FreeCount(s)
    ensures at < |s|
  {
    assert s[..|s|] == s;
  }

  /** The slot of the k-th id is the k-th free one. */
  ghost predicate SlotsInOrder(s: Slots, slots: seq<int>) {
    forall k | 0 <= k < |slots| ::
      0 <= slots[k] < |s| && s[slots[k]].None? && FreeCount(s[..slots[k]]) == k
  }

  /** m takes every id to the slot of an occurrence of it. */
  ghost predicate MapsTo(m: map<int, int>, ids: seq<int>, slots: seq<int>) {
    && |slots| == |ids|
    && (forall id | id in m :: id in ids)
    && (forall k | 0 <= k < |ids| :: ids[k] in m)
    && forall id | id in m :: exists k :: 0 <= k < |ids| && ids[k] == id && slots[k] == m[id]
  }

  lemma NoIds(s: Slots)
    ensures MapsTo(map[], [], []) && SlotsInOrder(s, []) && FreeCount(s[..0]) == 0
  {
  }

  lemma OrderMore(s: Slots, slots: seq<int>, slot: nat)
    requires SlotsInOrder(s, slots) && slot < |s| && s[slot].None? && FreeCount(s[..slot]) == |slots|
    ensures SlotsInOrder(s, slots + [slot])
  {
  }

  lemma MapsMore(m: map<int, int>, ids: seq<int>, slots: seq<int>, i: nat, slot: int)
    requires i < |ids| && MapsTo(m, ids[..i], slots)
    ensures MapsTo(m[ids[i] := slot], ids[..i + 1], slots + [slot])
  {
    var m', ids', slots' := m[ids[i] := slot], ids[..i + 1], slots + [slot];
    forall id | id in m' ensures exists k :: 0 <= k < |ids'| && ids'[k] == id && slots'[k] == m'[id] {
      if id == ids[i] {
        assert ids'[i] == id && slots'[i] == m'[id];
      } else {
        var k :| 0 <= k < i && ids[..i][k] == id && slots[k] == m[id];
        assert ids'[k] == id && slots'[k] == m'[id];
      }
    }
  }

  /** The map has as many entries as there are ids exactly when no id is repeated. */
  lemma MapSize(m: map<int, int>, ids: seq<int>, slots: seq<int>)
    requires MapsTo(m, ids, slots)
    ensures |m| == |ids| <==> Distinct(ids)
  {
    SameInts(m.Keys, Members(ids));
    assert |m| == |m.Keys|;
    if Distinct(ids) { DistinctSize(ids); } else { RepeatedSize(ids); }
  }

  lemma {:induction false} RepeatedSize(ids: seq<int>)
    requires !Distinct(ids)
    ensures |Members(ids)| < |ids|
    decreases |ids|
  {
    var n := |ids| - 1;
    SameInts(Members(ids), Members(ids[..n]) + {ids[n]});
    MembersSize(ids[..n]);
    if Distinct(ids[..n]) {
      assert ids[n] in ids[..n];
      assert ids[n] in Members(ids[..n]);
      SameInts(Members(ids), Members(ids[..n]));
    } else {
      RepeatedSize(ids[..n]);
    }
  }

  lemma MapIsIdMap(m: map<int, int>, ids: seq<int>, slots: seq<int>, s: Slots)
    requires MapsTo(m, ids, slots) && Distinct(ids) && SlotsInOrder(s, slots)
    ensures IsIdMap(m, ids, s)
  {
    forall k | 0 <= k < |ids| ensures m[ids[k]] == slots[k] {
      var j :| 0 <= j < |ids| && ids[j] == ids[k] && slots[j] == m[ids[k]];
    }
  }
}
