/** What the two scans of InitData leave in every slot, for any pool, any extra transactions and any short ids. */
module CompactBlocksScans {
  import opened CompactBlocks
  import opened CompactBlocksImpl
  import opened Prelude

  /** The transactions of a list whose short id is the given one, in order. */
  function Matches(hash: Hasher, c: CompactBlock, txs: seq<Tx>, id: int): seq<Tx>
    decreases |txs|
  {
    if txs == [] then []
    else
      var n := |txs| - 1;
      Matches(hash, c, txs[..n], id) + if ShortId(hash, c, txs[n]) == id then [txs[n]] else []
  }

  lemma MatchesMore(hash: Hasher, c: CompactBlock, txs: seq<Tx>, tx: Tx, id: int)
    ensures Matches(hash, c, txs + [tx], id) ==
            Matches(hash, c, txs, id) + if ShortId(hash, c, tx) == id then [tx] else []
  {
    assert (txs + [tx])[..|txs|] == txs;
  }

  /**
    What stands in the slot of a short id that p of the pool and e of the extra transactions match: the first match, if
    at most one is of the pool and the extra ones are all that same transaction; else nothing.
   */
  function Outcome(p: seq<Tx>, e: seq<Tx>): Option<Tx> {
    if |p| <= 1 && p + e != [] && AllOf(e, (p + e)[0].wtxid) then Some((p + e)[0]) else None
  }

  predicate AllOf(txs: seq<Tx>, wtxid: int) { forall k | 0 <= k < |txs| :: txs[k].wtxid == wtxid }

  predicate Injective(m: map<int, int>) { forall a, b | a in m && b in m :: m[a] == m[b] ==> a == b }

  /** The short ids whose slot is filled by a match. */
  function Standing(slots: Slots, m: map<int, int>): set<int> {
    set id | id in m && 0 <= m[id] < |slots| && slots[m[id]].Some?
  }

  /** sc is what the given matches make of the slots s: every slot that no short id leads to is untouched. */
  ghost predicate Shows(
    sc: Scan, s: Slots, count: int, m: map<int, int>, hash: Hasher, c: CompactBlock, pool: seq<Tx>, extra: seq<Tx>)
  {
    && ScanOk(sc, m) && |sc.slots| == |s|
    && (forall id | id in m :: SlotShows(sc, m[id], Matches(hash, c, pool, id), Matches(hash, c, extra, id)))
    && (forall j | 0 <= j < |s| && (forall id | id in m :: m[id] != j) :: sc.slots[j] == s[j])
    && sc.count == count + |Standing(sc.slots, m)|
  }

  predicate SlotShows(sc: Scan, j: int, p: seq<Tx>, e: seq<Tx>) {
    && 0 <= j < |sc.slots| == |sc.have|
    && (sc.have[j] <==> p + e != [])
    && sc.slots[j] == Outcome(p, e)
  }

  lemma OfferShows(sc: Scan, m: map<int, int>, id: int, tx: Tx, p: seq<Tx>)
    requires ScanOk(sc, m) && id in m && SlotShows(sc, m[id], p, [])
    ensures SlotShows(Offer(sc, m, id, tx), m[id], p + [tx], [])
  {
  }

  lemma OutcomeMore(p: seq<Tx>, e: seq<Tx>, tx: Tx)
    ensures Outcome(p, e + [tx]) ==
            if p + e == [] then Some(tx)
            else if Outcome(p, e).Some? && Outcome(p, e).value.wtxid == tx.wtxid then Outcome(p, e) else None
  {
    assert p + (e + [tx]) == p + e + [tx];
    if p + e != [] {
      var w := (p + e)[0].wtxid;
      assert AllOf(e + [tx], w) <==> AllOf(e, w) && tx.wtxid == w by {
        if AllOf(e + [tx], w) {
          forall k | 0 <= k < |e| ensures e[k].wtxid == w { assert (e + [tx])[k] == e[k]; }
          assert (e + [tx])[|e|] == tx;
        }
      }
    }
  }

  lemma OfferExtraShows(sc: Scan, m: map<int, int>, id: int, tx: Tx, p: seq<Tx>, e: seq<Tx>)
    requires ScanOk(sc, m) && id in m && SlotShows(sc, m[id], p, e)
    ensures SlotShows(OfferExtra(sc, m, id, tx), m[id], p, e + [tx])
  {
    hide Outcome;
    OutcomeMore(p, e, tx);
    assert p + (e + [tx]) == p + e + [tx];
  }

  /** An offer touches the slot of its own short id only. */
  lemma OfferElsewhere(sc: Scan, m: map<int, int>, id: int, tx: Tx, j: nat)
    requires ScanOk(sc, m) && j < |sc.slots| && (id in m ==> m[id] != j)
    ensures var a, b := Offer(sc, m, id, tx), OfferExtra(sc, m, id, tx);
            && |a.slots| == |b.slots| == |sc.slots|
            && a.slots[j] == b.slots[j] == sc.slots[j] && a.have[j] == b.have[j] == sc.have[j]
  {
  }

  lemma OfferCounts(sc: Scan, m: map<int, int>, id: int, tx: Tx)
    requires ScanOk(sc, m) && Injective(m)
    requires id in m ==> (sc.slots[m[id]].Some? ==> sc.have[m[id]])
    ensures var a, b := Offer(sc, m, id, tx), OfferExtra(sc, m, id, tx);
            && a.count - sc.count == |Standing(a.slots, m)| - |Standing(sc.slots, m)|
            && b.count - sc.count == |Standing(b.slots, m)| - |Standing(sc.slots, m)|
  {
    hide Offer, OfferExtra;
    var a, b := Offer(sc, m, id, tx), OfferExtra(sc, m, id, tx);
    OfferSizes(sc, m, id, tx);
    OfferAt(sc, m, id, tx);
    if id in m {
      forall k | k in m && k != id
        ensures a.slots[m[k]] == b.slots[m[k]] == sc.slots[m[k]]
      {
        assert m[k] != m[id];
        OfferElsewhere(sc, m, id, tx, m[k]);
      }
      assert Standing(sc.slots, m) - {id} == Standing(a.slots, m) - {id};
      assert Standing(sc.slots, m) - {id} == Standing(b.slots, m) - {id};
      OneApart(Standing(sc.slots, m), Standing(a.slots, m), id);
      OneApart(Standing(sc.slots, m), Standing(b.slots, m), id);
    }
  }

  lemma OfferAt(sc: Scan, m: map<int, int>, id: int, tx: Tx)
    requires ScanOk(sc, m)
    ensures var a, b := Offer(sc, m, id, tx), OfferExtra(sc, m, id, tx);
            && (id !in m ==> a == b == sc)
            && (id in m && (sc.slots[m[id]].Some? ==> sc.have[m[id]]) ==>
                  && |a.slots| == |b.slots| == |sc.slots|
                  && a.count - sc.count == Filled(a.slots[m[id]]) - Filled(sc.slots[m[id]])
                  && b.count - sc.count == Filled(b.slots[m[id]]) - Filled(sc.slots[m[id]]))
  {
  }

  function Filled(slot: Option<Tx>): int { if slot.Some? then 1 else 0 }

  lemma PoolOfferShows(
    sc: Scan, s: Slots, count: int, m: map<int, int>, hash: Hasher, c: CompactBlock, seen: seq<Tx>, tx: Tx)
    requires Shows(sc, s, count, m, hash, c, seen, []) && Injective(m)
    ensures Shows(Offer(sc, m, ShortId(hash, c, tx), tx), s, count, m, hash, c, seen + [tx], [])
  {
    hide Offer, OfferExtra, SlotShows, Standing, ShortId, Matches;
    var id := ShortId(hash, c, tx);
    var a := Offer(sc, m, id, tx);
    OfferSizes(sc, m, id, tx);
    forall k | k in m ensures SlotShows(a, m[k], Matches(hash, c, seen + [tx], k), Matches(hash, c, [], k)) {
      MatchesMore(hash, c, seen, tx, k);
      NoMatches(hash, c, k);
      if k == id {
        OfferShows(sc, m, id, tx, Matches(hash, c, seen, k));
      } else {
        if id in m { assert m[k] != m[id]; }
        assert Matches(hash, c, seen, k) + [] == Matches(hash, c, seen, k);
        OfferElsewhere(sc, m, id, tx, m[k]);
        SameShows(sc, a, m[k], Matches(hash, c, seen, k), []);
      }
    }
    forall j | 0 <= j < |s| && (forall k | k in m :: m[k] != j) ensures a.slots[j] == s[j] {
      OfferElsewhere(sc, m, id, tx, j);
    }
    if id in m { FilledIsHad(sc, m[id], Matches(hash, c, seen, id), Matches(hash, c, [], id)); }
    OfferCounts(sc, m, id, tx);
  }

  lemma OfferSizes(sc: Scan, m: map<int, int>, id: int, tx: Tx)
    requires ScanOk(sc, m)
    ensures var a, b := Offer(sc, m, id, tx), OfferExtra(sc, m, id, tx);
            |a.slots| == |b.slots| == |sc.slots| && |a.have| == |b.have| == |sc.have|
  {
  }

  lemma NoMatches(hash: Hasher, c: CompactBlock, id: int)
    ensures Matches(hash, c, [], id) == []
  {
  }

  lemma SameShows(sc: Scan, a: Scan, j: int, p: seq<Tx>, e: seq<Tx>)
    requires SlotShows(sc, j, p, e) && |a.slots| == |sc.slots| && |a.have| == |sc.have|
    requires a.slots[j] == sc.slots[j] && a.have[j] == sc.have[j]
    ensures SlotShows(a, j, p, e)
  {
  }

  lemma FilledIsHad(sc: Scan, j: int, p: seq<Tx>, e: seq<Tx>)
    requires SlotShows(sc, j, p, e)
    ensures sc.slots[j].Some? ==> sc.have[j]
  {
  }

  lemma ExtraOfferShows(
    sc: Scan, s: Slots, count: int, m: map<int, int>, hash: Hasher, c: CompactBlock, pool: seq<Tx>, seen: seq<Tx>,
    tx: Tx)
    requires Shows(sc, s, count, m, hash, c, pool, seen) && Injective(m)
    ensures Shows(OfferExtra(sc, m, ShortId(hash, c, tx), tx), s, count, m, hash, c, pool, seen + [tx])
  {
    hide Offer, OfferExtra, SlotShows, Standing, ShortId, Matches;
    var id := ShortId(hash, c, tx);
    var a := OfferExtra(sc, m, id, tx);
    OfferSizes(sc, m, id, tx);
    forall k | k in m ensures SlotShows(a, m[k], Matches(hash, c, pool, k), Matches(hash, c, seen + [tx], k)) {
      MatchesMore(hash, c, seen, tx, k);
      if k == id {
        OfferExtraShows(sc, m, id, tx, Matches(hash, c, pool, k), Matches(hash, c, seen, k));
      } else {
        if id in m { assert m[k] != m[id]; }
        assert Matches(hash, c, seen, k) + [] == Matches(hash, c, seen, k);
        OfferElsewhere(sc, m, id, tx, m[k]);
        SameShows(sc, a, m[k], Matches(hash, c, pool, k), Matches(hash, c, seen, k));
      }
    }
    forall j | 0 <= j < |s| && (forall k | k in m :: m[k] != j) ensures a.slots[j] == s[j] {
      OfferElsewhere(sc, m, id, tx, j);
    }
    if id in m { FilledIsHad(sc, m[id], Matches(hash, c, pool, id), Matches(hash, c, seen, id)); }
    OfferCounts(sc, m, id, tx);
  }

  /** The pool scan shows as much of the pool as it takes to match every short id, or all of it. */
  lemma {:induction false} PoolShows(
    sc: Scan, s: Slots, count: int, m: map<int, int>, hash: Hasher, c: CompactBlock, seen: seq<Tx>, pool: seq<Tx>)
    returns (n: nat)
    requires Shows(sc, s, count, m, hash, c, seen, []) && Injective(m)
    ensures n <= |pool| && Shows(PoolScan(sc, m, hash, c, pool), s, count, m, hash, c, seen + pool[..n], [])
    ensures n < |pool| ==> PoolScan(sc, m, hash, c, pool).count == |m|
    decreases |pool|
  {
    hide Shows, Offer, ShortId, Injective;
    ShowsOk(sc, s, count, m, hash, c, seen, []);
    if pool == [] {
      n := 0;
      assert seen + pool[..0] == seen;
    } else {
      PoolOfferShows(sc, s, count, m, hash, c, seen, pool[0]);
      var next := Offer(sc, m, ShortId(hash, c, pool[0]), pool[0]);
      if next.count == |m| {
        n := 1;
        assert seen + pool[..1] == seen + [pool[0]];
      } else {
        var k := PoolShows(next, s, count, m, hash, c, seen + [pool[0]], pool[1..]);
        n := k + 1;
        assert seen + [pool[0]] + pool[1..][..k] == seen + pool[..n];
      }
    }
  }

  lemma ShowsOk(
    sc: Scan, s: Slots, count: int, m: map<int, int>, hash: Hasher, c: CompactBlock, pool: seq<Tx>, extra: seq<Tx>)
    requires Shows(sc, s, count, m, hash, c, pool, extra)
    ensures ScanOk(sc, m)
  {
  }

  lemma {:induction false} ExtraShows(
    sc: Scan, s: Slots, count: int, m: map<int, int>, hash: Hasher, c: CompactBlock, pool: seq<Tx>, seen: seq<Tx>,
    extra: seq<Tx>)
    returns (n: nat)
    requires Shows(sc, s, count, m, hash, c, pool, seen) && Injective(m)
    ensures n <= |extra| && Shows(ExtraScan(sc, m, hash, c, extra), s, count, m, hash, c, pool, seen + extra[..n])
    ensures n < |extra| ==> ExtraScan(sc, m, hash, c, extra).count == |m|
    decreases |extra|
  {
    hide Shows, OfferExtra, ShortId, Injective;
    ShowsOk(sc, s, count, m, hash, c, pool, seen);
    if extra == [] {
      n := 0;
      assert seen + extra[..0] == seen;
    } else {
      ExtraOfferShows(sc, s, count, m, hash, c, pool, seen, extra[0]);
      var next := OfferExtra(sc, m, ShortId(hash, c, extra[0]), extra[0]);
      if next.count == |m| {
        n := 1;
        assert seen + extra[..1] == seen + [extra[0]];
      } else {
        var k := ExtraShows(next, s, count, m, hash, c, pool, seen + [extra[0]], extra[1..]);
        n := k + 1;
        assert seen + [extra[0]] + extra[1..][..k] == seen + extra[..n];
      }
    }
  }

  /**
    Every slot after a successful InitData on a fresh object: prefilled, or what its short id's matches make of it among
    the transactions that were looked at. A scan stops early only when every short id has its one match.
   */
  lemma ReceivedExactly(
    c: CompactBlock, pool: seq<Tx>, extra: seq<Tx>, hash: Hasher, m: map<int, int>, slots: Slots)
    returns (n: nat, k: nat)
    requires Deserialized(c) && PlacedUpTo(c, |c.prefilledtxn|) && Received(c, pool, extra, hash, 0, m, slots)
    ensures n <= |pool| && k <= |extra| && |slots| == c.BlockTxCount()
    ensures forall id | id in m ::
              0 <= m[id] < |slots| &&
              slots[m[id]] == Outcome(Matches(hash, c, pool[..n], id), Matches(hash, c, extra[..k], id))
    ensures forall j | 0 <= j < |slots| && (forall id | id in m :: m[id] != j) ::
              slots[j] == Placed(c, |c.prefilledtxn|)[j]
    ensures n < |pool| ==> forall id | id in m :: |Matches(hash, c, pool[..n], id)| == 1
    ensures k < |extra| ==> forall id | id in m :: slots[m[id]].Some?
  {
    hide Placed, PlacedUpTo, PoolScan, ExtraScan, IsIdMap, Outcome, Matches;
    var s := Placed(c, |c.prefilledtxn|);
    MapInjective(m, c.shorttxids, s);
    StartShows(s, m, c.shorttxids, hash, c);
    n := PoolShows(Unmatched(s, 0), s, 0, m, hash, c, [], pool);
    var mid := PoolScan(Unmatched(s, 0), m, hash, c, pool);
    assert [] + pool[..n] == pool[..n];
    k := ExtraShows(mid, s, 0, m, hash, c, pool[..n], [], extra);
    assert [] + extra[..k] == extra[..k];
    var end := ExtraScan(mid, m, hash, c, extra);
    if n < |pool| { AllStand(mid, s, m, hash, c, pool[..n], []); }
    if k < |extra| { AllStand(end, s, m, hash, c, pool[..n], extra[..k]); }
    assert forall id | id in m ::
        SlotShows(end, m[id], Matches(hash, c, pool[..n], id), Matches(hash, c, extra[..k], id));
  }

  lemma AllStand(
    sc: Scan, s: Slots, m: map<int, int>, hash: Hasher, c: CompactBlock, pool: seq<Tx>, extra: seq<Tx>)
    requires Shows(sc, s, 0, m, hash, c, pool, extra) && sc.count == |m|
    ensures forall id | id in m :: 0 <= m[id] < |sc.slots| && sc.slots[m[id]].Some?
    ensures extra == [] ==> forall id | id in m :: |Matches(hash, c, pool, id)| == 1
  {
    hide Matches;
    SubsetCardinality(Standing(sc.slots, m), m.Keys);
    forall id | id in m ensures 0 <= m[id] < |sc.slots| && sc.slots[m[id]].Some? {
      assert id in Standing(sc.slots, m);
    }
    if extra == [] {
      forall id | id in m ensures |Matches(hash, c, pool, id)| == 1 {
        NoMatches(hash, c, id);
        assert SlotShows(sc, m[id], Matches(hash, c, pool, id), Matches(hash, c, extra, id));
      }
    }
  }

  lemma MapInjective(m: map<int, int>, ids: seq<int>, s: Slots)
    requires IsIdMap(m, ids, s)
    ensures Injective(m)
  {
    hide FreeCount;
    forall a, b | a in m && b in m && m[a] == m[b] ensures a == b {
      var i :| 0 <= i < |ids| && ids[i] == a;
      var j :| 0 <= j < |ids| && ids[j] == b;
    }
  }

  lemma StartShows(s: Slots, m: map<int, int>, ids: seq<int>, hash: Hasher, c: CompactBlock)
    requires IsIdMap(m, ids, s) && ScanOk(Unmatched(s, 0), m)
    ensures Shows(Unmatched(s, 0), s, 0, m, hash, c, [], [])
  {
    hide FreeCount;
    forall id | id in m ensures s[m[id]].None? {
      var i :| 0 <= i < |ids| && ids[i] == id;
    }
    assert Standing(s, m) == {};
  }
}
