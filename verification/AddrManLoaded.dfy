/** What holds while any file is loaded, however corrupt, and why a file that passes the check gives a valid manager. */
module AddrManLoaded {
  import opened Prelude
  import opened AddrTypes
  import opened AddrManInvariant
  import opened AddrManOps
  import opened AddrManCheck
  import Spec = AddrManSpec
  import Disk = AddrManDisk

  // ----- random order and per-network counters -----

  /** Places and counters agree with the records, whatever was read. */
  ghost predicate Sound(env: Env, s: Spec.State) {
    && RandomOk(s.info, s.random)
    && NetExact(env, s.info, s.counts)
  }

  ghost predicate NetExact(env: Env, info: InfoMap, counts: map<Network, Spec.Count>) {
    CountsOk(env, info, |Tally(env, info, {}, false, None)|, |Tally(env, info, {}, true, None)|, counts, {})
  }

  lemma NetExactMoves(env: Env, info: InfoMap, info': InfoMap, id: int, net: Network, counts: map<Network, Spec.Count>)
    requires NetExact(env, info, counts) && SameElsewhere(info, info', {}, {}, id)
    requires id in info ==> Spec.NetOf(env, info[id]) == net
    requires id in info' ==> Spec.NetOf(env, info'[id]) == net
    ensures var dNew := Counted(info', {}, id, false) - Counted(info, {}, id, false);
            var dTried := Counted(info', {}, id, true) - Counted(info, {}, id, true);
            && NetExact(env, info', Spec.AddCount(counts, net, dNew, dTried))
            && (dNew == dTried == 0 ==> NetExact(env, info', counts))
  {
    hide Tally, CountsOk, SameElsewhere, Counted, Spec.NetOf, Spec.AddCount;
    var nNew, nTried := |Tally(env, info, {}, false, None)|, |Tally(env, info, {}, true, None)|;
    CountsMove(env, info, info', {}, {}, id, net, nNew, nTried, counts);
    var dNew := Counted(info', {}, id, false) - Counted(info, {}, id, false);
    var dTried := Counted(info', {}, id, true) - Counted(info, {}, id, true);
    Disk.CountsTotals(env, info', nNew + dNew, nTried + dTried, Spec.AddCount(counts, net, dNew, dTried));
  }

  lemma AppendEntry(info: InfoMap, random: seq<int>, id: int, i: AddrInfo)
    requires RandomOk(info, random) && id !in info && i.randomPos == |random|
    ensures RandomOk(info[id := i], random + [id])
  {
  }

  lemma LoadNewSound(env: Env, s: Spec.State, n: int, r: Disk.Record)
    requires Sound(env, s) && n !in s.info
    ensures Sound(env, Disk.LoadNewOne(env, s, n, r))
  {
    hide RandomOk, NetExact, Spec.AddCount;
    var i := Disk.FromRecord(r).(randomPos := |s.random|);
    AppendEntry(s.info, s.random, n, i);
    NetExactMoves(env, s.info, s.info[n := i], n, Spec.NetOf(env, i), s.counts);
  }

  lemma LoadTriedSound(env: Env, s: Spec.State, r: Disk.Record)
    requires Sound(env, s) && s.idCount !in s.info
    ensures Sound(env, Disk.LoadTriedOne(env, s, r))
  {
    hide RandomOk, NetExact, Spec.AddCount, TriedSlot;
    var i := Disk.FromRecord(r).(randomPos := |s.random|, inTried := true);
    AppendEntry(s.info, s.random, s.idCount, i);
    NetExactMoves(env, s.info, s.info[s.idCount := i], s.idCount, Spec.NetOf(env, i), s.counts);
  }

  lemma PutNewSound(env: Env, s: Spec.State, slot: Slot, id: int)
    requires Sound(env, s) && id in s.info
    ensures Sound(env, Spec.PutNew(s, slot, id))
  {
    hide RandomOk, NetExact;
    var i := s.info[id].(refCount := s.info[id].refCount + 1);
    RandomUpdate(s.info, s.random, id, i);
    NetExactMoves(env, s.info, s.info[id := i], id, Spec.NetOf(env, i), s.counts);
  }

  lemma NewCounted(env: Env, s: Spec.State, id: int)
    requires Sound(env, s) && id in s.info && !s.info[id].inTried
    ensures Spec.CountOf(s.counts, Spec.NetOf(env, s.info[id])).asNew > 0
    ensures Spec.CountOf(s.counts, Spec.NetOf(env, s.info[id])).asTried >= 0
  {
    hide RandomOk;
    assert id in Tally(env, s.info, {}, false, Some(Spec.NetOf(env, s.info[id])));
  }

  lemma DeleteSound(env: Env, s: Spec.State, id: int)
    requires Sound(env, s) && id in s.info && !s.info[id].inTried
    ensures Sound(env, Spec.Delete(env, s, id))
  {
    hide NetExact, Spec.SwapRandom, Spec.AddCount;
    var t := Spec.SwapRandom(s, s.info[id].randomPos, |s.random| - 1);
    SwapToLast(s, id);
    SwapRandomEffect(s, s.info[id].randomPos, |s.random| - 1);
    SwapStaysOk(s, id);
    DropLast(t.info, t.random, id);
    NetExactMoves(env, s.info, t.info - {id}, id, Spec.NetOf(env, s.info[id]), s.counts);
  }

  lemma SwapStaysOk(s: Spec.State, id: int)
    requires RandomOk(s.info, s.random) && id in s.info
    ensures var t := Spec.SwapRandom(s, s.info[id].randomPos, |s.random| - 1);
            RandomOk(t.info, t.random)
  {
    if s.info[id].randomPos != |s.random| - 1 {
      SwapPositions(s.info, s.random, s.info[id].randomPos, |s.random| - 1);
    }
  }

  lemma DropLast(info: InfoMap, random: seq<int>, id: int)
    requires RandomOk(info, random) && id in info && info[id].randomPos == |random| - 1
    ensures RandomOk(info - {id}, random[..|random| - 1])
  {
  }

  lemma CountsNotNegative(env: Env, s: Spec.State, net: Network)
    requires Sound(env, s)
    ensures Spec.CountOf(s.counts, net).asNew >= 0 && Spec.CountOf(s.counts, net).asTried >= 0
  {
  }

  lemma SoundIgnoresTried(env: Env, s: Spec.State, n: int)
    requires Sound(env, s)
    ensures Sound(env, s.(nTried := n))
  {
  }

  lemma SoundIgnoresIds(env: Env, s: Spec.State, n: int)
    requires Sound(env, s)
    ensures Sound(env, s.(idCount := n))
  {
  }

  lemma SoundOrder(env: Env, s: Spec.State)
    requires Sound(env, s)
    ensures RandomOk(s.info, s.random)
  {
  }

  lemma FreshSound(env: Env, s: Spec.State)
    requires s.info == map[] && s.random == [] && s.counts == map[]
    ensures Sound(env, s)
  {
    forall t, net ensures Tally(env, map[], {}, t, net) == {} { Disk.NoTally(env, t, net); }
  }

  // ----- ids and places -----

  ghost predicate Below(info: InfoMap, bound: int) { forall id | id in info :: 0 <= id < bound }

  lemma {:induction false} RowPlacesRange(b: int, row: seq<int>, nNew: int)
    ensures forall k | 0 <= k < |Disk.RowPlaces(b, row, nNew)| ::
              Disk.RowPlaces(b, row, nNew)[k].bucket == b && 0 <= Disk.RowPlaces(b, row, nNew)[k].index < nNew
    decreases |row|
  {
    if row != [] { RowPlacesRange(b, row[..|row| - 1], nNew); }
  }

  lemma {:induction false} PlacesRange(buckets: seq<seq<int>>, nNew: int)
    ensures forall k | 0 <= k < |Disk.Places(buckets, nNew)| ::
              && 0 <= Disk.Places(buckets, nNew)[k].bucket < |buckets|
              && 0 <= Disk.Places(buckets, nNew)[k].index < nNew
    decreases |buckets|
  {
    if buckets != [] {
      PlacesRange(buckets[..|buckets| - 1], nNew);
      RowPlacesRange(|buckets| - 1, buckets[|buckets| - 1], nNew);
    }
  }

  lemma BucketingFits(env: Env, f: Disk.File)
    requires Disk.Framed(f)
    ensures Disk.RestoresBucketing(env, f) ==> |f.buckets| <= NEW_BUCKET_COUNT
  {
  }

  // ----- what no step of loading breaks -----

  /** mapAddr leads only to records of that address, the new table stays in range, and no collision is pending. */
  ghost predicate Tidy(s: Spec.State) {
    && Leads(s.info, s.addr)
    && (forall slot | slot in s.newTab :: InNewTable(slot))
    && s.collisions == {}
  }

  ghost predicate Leads(info: InfoMap, addr: map<Service, int>) {
    forall a | a in addr :: addr[a] in info && info[addr[a]].addr.service == a
  }

  /** Reading the new records into an empty manager. */
  lemma {:induction false} LoadNewTidy(env: Env, s: Spec.State, rs: seq<Disk.Record>)
    requires s.info == map[] && Sound(env, s) && Tidy(s)
    ensures var t := Disk.LoadNew(env, s, rs);
            Sound(env, t) && Tidy(t) && t.idCount == s.idCount && forall k :: k in t.info <==> 0 <= k < |rs|
    decreases |rs|
  {
    hide Sound, Tidy, Disk.LoadNewOne;
    if rs != [] {
      var n := |rs| - 1;
      LoadNewTidy(env, s, rs[..n]);
      var t := Disk.LoadNew(env, s, rs[..n]);
      LoadNewSound(env, t, n, rs[n]);
      LoadNewOneTidy(env, t, n, rs[n]);
    }
  }

  lemma LoadNewOneTidy(env: Env, s: Spec.State, n: int, r: Disk.Record)
    requires Tidy(s) && n !in s.info
    ensures var t := Disk.LoadNewOne(env, s, n, r);
            Tidy(t) && t.info.Keys == s.info.Keys + {n} && t.idCount == s.idCount
  {
    hide Spec.AddCount, Spec.NetOf;
  }

  lemma {:induction false} LoadTriedTidy(env: Env, s: Spec.State, rs: seq<Disk.Record>)
    requires Sound(env, s) && Tidy(s) && Below(s.info, s.idCount) && s.idCount >= 0
    ensures var t := Disk.LoadTried(env, s, rs);
            && Sound(env, t) && Tidy(t) && Below(t.info, t.idCount) && t.idCount >= 0
            && s.info.Keys <= t.info.Keys
    decreases |rs|
  {
    hide Sound, Tidy, Below, Disk.LoadTriedOne;
    if rs != [] {
      var n := |rs| - 1;
      LoadTriedTidy(env, s, rs[..n]);
      var t := Disk.LoadTried(env, s, rs[..n]);
      NextIdFree(t.info, t.idCount);
      LoadTriedSound(env, t, rs[n]);
      LoadTriedOneTidy(env, t, rs[n]);
    }
  }

  lemma NextIdFree(info: InfoMap, bound: int)
    requires Below(info, bound)
    ensures bound !in info
  {
  }

  lemma LoadTriedOneTidy(env: Env, s: Spec.State, r: Disk.Record)
    requires Tidy(s) && Below(s.info, s.idCount) && s.idCount >= 0
    ensures var t := Disk.LoadTriedOne(env, s, r);
            Tidy(t) && Below(t.info, t.idCount) && t.idCount >= 0 && s.info.Keys <= t.info.Keys
  {
    hide Spec.AddCount, Spec.NetOf, TriedSlot;
  }

  /** A place remembered in the file names a record and, if it is to be used, a bucket. */
  ghost predicate PlaceOk(s: Spec.State, restoreBucketing: bool, p: Disk.Place) {
    p.index in s.info && (restoreBucketing ==> 0 <= p.bucket < NEW_BUCKET_COUNT)
  }

  lemma RestoreTidy(env: Env, s: Spec.State, restoreBucketing: bool, p: Disk.Place)
    requires Sound(env, s) && Tidy(s) && PlaceOk(s, restoreBucketing, p)
    ensures var t := Disk.Restore(env, s, restoreBucketing, p);
            Sound(env, t) && Tidy(t) && t.info.Keys == s.info.Keys && t.idCount == s.idCount
  {
    hide Sound, SlotInBucket, NewSlot, Tidy;
    var i := s.info[p.index];
    var slot := SlotInBucket(env, s.key, i.addr.service, p.bucket);
    var home := NewSlot(env, s.key, i.addr.service, i.source);
    PutNewSound(env, s, slot, p.index);
    PutNewSound(env, s, home, p.index);
    PutNewTidy(s, home, p.index);
    if restoreBucketing { PutNewTidy(s, slot, p.index); }
  }

  lemma PutNewTidy(s: Spec.State, slot: Slot, id: int)
    requires Tidy(s) && id in s.info && InNewTable(slot)
    ensures var t := Spec.PutNew(s, slot, id); Tidy(t) && t.info.Keys == s.info.Keys && t.idCount == s.idCount
  {
  }

  lemma {:induction false} RestoreAllTidy(env: Env, s: Spec.State, restoreBucketing: bool, ps: seq<Disk.Place>)
    requires Sound(env, s) && Tidy(s) && forall k | 0 <= k < |ps| :: PlaceOk(s, restoreBucketing, ps[k])
    ensures var t := Disk.RestoreAll(env, s, restoreBucketing, ps);
            Sound(env, t) && Tidy(t) && t.info.Keys == s.info.Keys && t.idCount == s.idCount
    decreases |ps|
  {
    hide Sound, Tidy, Disk.Restore;
    if ps != [] {
      var n := |ps| - 1;
      RestoreAllTidy(env, s, restoreBucketing, ps[..n]);
      assert PlaceOk(s, restoreBucketing, ps[n]);
      RestoreTidy(env, Disk.RestoreAll(env, s, restoreBucketing, ps[..n]), restoreBucketing, ps[n]);
    }
  }

  lemma DeleteTidy(env: Env, s: Spec.State, id: int)
    requires Sound(env, s) && Tidy(s) && Below(s.info, s.idCount) && id in s.info
    ensures var t := Spec.Delete(env, s, id); Tidy(t) && Below(t.info, t.idCount) && t.idCount == s.idCount
  {
    hide NetExact, RandomOk, Spec.AddCount, Spec.NetOf;
    DeleteEffect(env, s, id);
    var t := Spec.Delete(env, s, id);
    DeleteAddr(env, s, id);
    forall a | a in t.addr ensures t.addr[a] in t.info && t.info[t.addr[a]].addr.service == a {
      assert a in s.addr && t.addr[a] == s.addr[a];
      assert SameButPlace(t.info[t.addr[a]], s.info[t.addr[a]]);
    }
  }

  lemma DeleteAddr(env: Env, s: Spec.State, id: int)
    requires id in s.info
    ensures Spec.Delete(env, s, id).addr == s.addr - {s.info[id].addr.service}
    ensures Spec.Delete(env, s, id).collisions == s.collisions
  {
  }

  lemma {:induction false} PruneTidy(env: Env, s: Spec.State, order: seq<int>)
    requires Sound(env, s) && Tidy(s) && Below(s.info, s.idCount)
    ensures var t := Disk.Prune(env, s, order);
            Sound(env, t) && Tidy(t) && Below(t.info, t.idCount) && t.idCount == s.idCount
    decreases |order|
  {
    hide Sound, Tidy, Below, Spec.Delete;
    if order != [] {
      var n := |order| - 1;
      PruneTidy(env, s, order[..n]);
      var t := Disk.Prune(env, s, order[..n]);
      if order[n] in t.info && !t.info[order[n]].inTried && t.info[order[n]].refCount == 0 {
        DeleteSound(env, t, order[n]);
        DeleteTidy(env, t, order[n]);
      }
    }
  }

  /** All records are read, no place is restored yet. */
  function Unrestored(env: Env, f: Disk.File): Spec.State {
    var s := Spec.Initial(f.key).(nNew := f.nNew, nTried := f.nTried);
    var t := Disk.LoadNew(env, s, f.newRecords).(idCount := f.nNew);
    Disk.LoadTried(env, t, f.triedRecords).(nTried := f.nTried - Disk.Lost(env, t, f.triedRecords))
  }

  lemma LoadSteps(env: Env, f: Disk.File)
    ensures Disk.Load(env, f) ==
            Disk.RestoreAll(env, Unrestored(env, f), Disk.RestoresBucketing(env, f), Disk.Places(f.buckets, f.nNew))
  {
  }

  lemma UnrestoredTidy(env: Env, f: Disk.File)
    requires Disk.Framed(f) && f.nNew >= 0
    ensures var u := Unrestored(env, f);
            && Sound(env, u) && Tidy(u) && Below(u.info, u.idCount) && u.idCount >= 0
            && (forall k | 0 <= k < f.nNew :: k in u.info)
  {
    hide Sound, Disk.LoadNew, Disk.LoadTried, Disk.Lost;
    var s := Spec.Initial(f.key).(nNew := f.nNew, nTried := f.nTried);
    FreshSound(env, s);
    LoadNewTidy(env, s, f.newRecords);
    var t0 := Disk.LoadNew(env, s, f.newRecords);
    SoundIgnoresIds(env, t0, f.nNew);
    var t := t0.(idCount := f.nNew);
    LoadTriedTidy(env, t, f.triedRecords);
    var u0 := Disk.LoadTried(env, t, f.triedRecords);
    SoundIgnoresTried(env, u0, f.nTried - Disk.Lost(env, t, f.triedRecords));
  }

  /** Everything up to the final check, for any file. */
  lemma LoadTidy(env: Env, f: Disk.File)
    requires Disk.Framed(f) && f.nNew >= 0
    ensures var t := Disk.Load(env, f); Sound(env, t) && Tidy(t) && Below(t.info, t.idCount) && t.idCount >= 0
  {
    hide Sound, Tidy, Unrestored, Disk.Load, Disk.RestoreAll, Disk.Places, Disk.RestoresBucketing;
    var u, bucketing, ps := Unrestored(env, f), Disk.RestoresBucketing(env, f), Disk.Places(f.buckets, f.nNew);
    UnrestoredTidy(env, f);
    LoadSteps(env, f);
    PlacesRange(f.buckets, f.nNew);
    BucketingFits(env, f);
    RestoreAllTidy(env, u, bucketing, ps);
  }

  // ----- what the check adds -----

  /** A loaded state that passes the check satisfies the whole cross-index invariant. */
  lemma CheckedIsValid(env: Env, s: Spec.State)
    requires Sound(env, s) && Tidy(s) && Below(s.info, s.idCount) && s.idCount >= 0 && CheckOk(env, s)
    ensures Valid(env, s)
  {
    hide RandomOk, TriedOk, NetExact, CountsOk, EntriesOk, NewTableOk, NetCountsOk, Tally, NewOk, RefsOk, AddrOk,
         TimesOk;
    CheckedRecords(s.info, s.addr, s.random);
    CheckedTable(env, s.key, s.info, s.addr, s.random, s.newTab);
    CheckedCounts(env, s.info, s.nNew, s.nTried, s.counts);
  }

  lemma CheckedRecords(info: InfoMap, addr: map<Service, int>, random: seq<int>)
    requires EntriesOk(info, addr, random) && Leads(info, addr)
    ensures AddrOk(info, addr) && TimesOk(info)
  {
  }

  lemma CheckedTable(
    env: Env, key: Key, info: InfoMap, addr: map<Service, int>, random: seq<int>, tab: map<Slot, int>)
    requires EntriesOk(info, addr, random) && NewTableOk(env, key, info, tab)
    requires forall slot | slot in tab :: InNewTable(slot)
    ensures NewOk(env, key, info, tab, {}) && RefsOk(info, tab, {}, {})
  {
    hide SlotsOf, BucketPosition;
    forall slot | slot in tab ensures slot == SlotInBucket(env, key, info[tab[slot]].addr.service, slot.bucket) {
      assert NewSlotOk(env, key, info, tab, slot);
    }
    forall id | id in info ensures info[id].refCount == |SlotsOf(tab, id)| {
      assert EntryOk(id, info[id], addr, random);
      if info[id].inTried { NoSlotsOfTried(env, key, info, tab, id); }
    }
  }

  lemma NoSlotsOfTried(env: Env, key: Key, info: InfoMap, tab: map<Slot, int>, id: int)
    requires NewTableOk(env, key, info, tab) && id in info && info[id].inTried
    ensures SlotsOf(tab, id) == {}
  {
    hide BucketPosition;
    forall slot | slot in tab ensures tab[slot] != id { assert NewSlotOk(env, key, info, tab, slot); }
  }

  lemma CheckedCounts(env: Env, info: InfoMap, nNew: int, nTried: int, counts: map<Network, Spec.Count>)
    requires NetExact(env, info, counts)
    requires nNew == |Tally(env, info, {}, false, None)| && nTried == |Tally(env, info, {}, true, None)|
    ensures CountsOk(env, info, nNew, nTried, counts, {})
  {
  }

  /** Whatever a file holds: if loading it succeeds, the manager satisfies the invariant. */
  lemma LoadedIsValid(env: Env, f: Disk.File, order: seq<int>)
    requires Disk.Framed(f) && Disk.Unserialize(env, f, order).0.Loaded?
    ensures Valid(env, Disk.Unserialize(env, f, order).1)
  {
    hide Sound, Tidy, Below, CheckOk, Valid, Disk.Load, Disk.Prune, Disk.Framed;
    LoadTidy(env, f);
    PruneTidy(env, Disk.Load(env, f), order);
    CheckedIsValid(env, Disk.Prune(env, Disk.Load(env, f), order));
  }
}
