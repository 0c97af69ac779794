/** Serialize and Unserialize as the loops the source runs, over the object and its tables. */
module AddrManStore {
  import opened Prelude
  import opened AddrTypes
  import opened AddrManInvariant
  import opened AddrManOps
  import opened AddrMan
  import opened AddrManCheck
  import opened AddrManLoaded
  import opened AddrManRebucket
  import Spec = AddrManSpec
  import Disk = AddrManDisk

  // ----- Serialize -----

  method Serialize(m: AddrManImpl, order: seq<int>) returns (f: Disk.File)
    requires m.Shape() && Consistent(m.env, m.Abs()) && Disk.Enumerates(order, m.mapInfo)
    ensures f == Disk.Serialize(m.env, m.Abs(), order)
  {
    hide Inv, Table, Disk.Enumerates, Disk.Records, Disk.Listed, Disk.Row, Disk.IndexOf, Unknown;
    var newRecords, triedRecords, unkIds := WriteRecords(m, order);
    ghost var news := Disk.Listed(m.mapInfo, order, false);
    ghost var tab := Table(m.vvNew);
    var buckets := [];
    var bucket := 0;
    while bucket < NEW_BUCKET_COUNT
      invariant 0 <= bucket <= NEW_BUCKET_COUNT && |buckets| == bucket
      invariant forall b | 0 <= b < bucket :: buckets[b] == Disk.Row(Table(m.vvNew), news, b, BUCKET_SIZE)
    {
      var row := WriteRow(m, bucket, unkIds, news, order);
      buckets := buckets + [row];
      bucket := bucket + 1;
    }
    f := Disk.File(Disk.FILE_FORMAT, Disk.INCOMPATIBILITY_BASE + Disk.V4_MULTIPORT, m.nKey, m.nNew, m.nTried,
                   Disk.FlipBit30(NEW_BUCKET_COUNT), newRecords, triedRecords, buckets, m.env.asmapVersion);
    assert buckets == seq(NEW_BUCKET_COUNT, b => Disk.Row(tab, news, b, BUCKET_SIZE));
  }

  /** mapUnkIds: the index of each new id in the list of new records. */
  ghost predicate Unknown(info: InfoMap, list: seq<int>, seen: seq<int>, unkIds: map<int, int>) {
    forall id | id in seen && id in info && !info[id].inTried :: id in unkIds && unkIds[id] == Disk.IndexOf(list, id)
  }

  lemma UnknownStep(info: InfoMap, order: seq<int>, n: nat, unkIds: map<int, int>)
    requires n < |order| && Distinct(order)
    requires Unknown(info, Disk.Listed(info, order[..n], false), order[..n], unkIds)
    ensures Unknown(info, Disk.Listed(info, order[..n + 1], false), order[..n + 1],
                    unkIds[order[n] := |Disk.Listed(info, order[..n], false)|])
  {
    var before := Disk.Listed(info, order[..n], false);
    assert order[..n + 1][..n] == order[..n];
    assert order[..n + 1] == order[..n] + [order[n]];
    if order[n] in info && !info[order[n]].inTried {
      assert (before + [order[n]])[..|before|] == before;
    }
  }

  lemma ListedStep(info: InfoMap, order: seq<int>, n: nat, inTried: bool)
    requires n < |order| && order[n] in info
    ensures var before, after := Disk.Listed(info, order[..n], inTried), Disk.Listed(info, order[..n + 1], inTried);
            && after == (if info[order[n]].inTried == inTried then before + [order[n]] else before)
            && Disk.Records(info, after) == Disk.Records(info, before) +
                 (if info[order[n]].inTried == inTried then [Disk.ToRecord(info[order[n]])] else [])
  {
    assert order[..n + 1][..n] == order[..n];
  }

  lemma {:induction false} ListedGrows(info: InfoMap, order: seq<int>, n: nat, inTried: bool)
    requires n <= |order|
    ensures |Disk.Listed(info, order[..n], inTried)| <= |Disk.Listed(info, order, inTried)|
    decreases |order|
  {
    if n < |order| {
      ListedGrows(info, order[..|order| - 1], n, inTried);
      assert order[..|order| - 1][..n] == order[..n];
    } else {
      assert order[..n] == order;
    }
  }

  method WriteRecords(m: AddrManImpl, order: seq<int>)
    returns (newRecords: seq<Disk.Record>, triedRecords: seq<Disk.Record>, unkIds: map<int, int>)
    requires m.Shape() && Consistent(m.env, m.Abs()) && Disk.Enumerates(order, m.mapInfo)
    ensures newRecords == Disk.Records(m.mapInfo, Disk.Listed(m.mapInfo, order, false))
    ensures triedRecords == Disk.Records(m.mapInfo, Disk.Listed(m.mapInfo, order, true))
    ensures Unknown(m.mapInfo, Disk.Listed(m.mapInfo, order, false), order, unkIds)
  {
    hide Inv, Table, Distinct, Disk.Records, Disk.Listed, Unknown;
    ghost var s := m.Abs();
    var info := m.mapInfo;
    newRecords, triedRecords, unkIds := [], [], map[];
    Disk.SplitFacts(m.env, s, order);
    NothingWritten(info, order);
    var nIds, n := 0, 0;
    while n < |order|
      invariant 0 <= n <= |order|
      invariant newRecords == Disk.Records(info, Disk.Listed(info, order[..n], false))
      invariant nIds == |Disk.Listed(info, order[..n], false)|
      invariant Unknown(info, Disk.Listed(info, order[..n], false), order[..n], unkIds)
    {
      Disk.Lists(order, info, order[n]);
      ListedStep(info, order, n, false);
      ListedGrows(info, order, n + 1, false);
      UnknownStep(info, order, n, unkIds);
      ReferencedIffNew(m.env, s, order[n]);
      unkIds := unkIds[order[n] := nIds];
      if info[order[n]].refCount != 0 {
        assert nIds != m.nNew;
        newRecords := newRecords + [Disk.ToRecord(info[order[n]])];
        nIds := nIds + 1;
      }
      n := n + 1;
    }
    assert order[..n] == order;
    nIds, n := 0, 0;
    while n < |order|
      invariant 0 <= n <= |order|
      invariant triedRecords == Disk.Records(info, Disk.Listed(info, order[..n], true))
      invariant nIds == |Disk.Listed(info, order[..n], true)|
    {
      Disk.Lists(order, info, order[n]);
      ListedStep(info, order, n, true);
      ListedGrows(info, order, n + 1, true);
      if info[order[n]].inTried {
        assert nIds != m.nTried;
        triedRecords := triedRecords + [Disk.ToRecord(info[order[n]])];
        nIds := nIds + 1;
      }
      n := n + 1;
    }
    assert order[..n] == order;
  }

  lemma NothingWritten(info: InfoMap, order: seq<int>)
    ensures order[..0] == [] && Disk.Listed(info, [], false) == [] == Disk.Listed(info, [], true)
    ensures Disk.Records(info, []) == [] && Unknown(info, [], [], map[])
  {
  }

  lemma ReferencedIffNew(env: Env, s: Spec.State, id: int)
    requires Consistent(env, s) && id in s.info
    ensures s.info[id].refCount != 0 <==> !s.info[id].inTried
  {
    hide AddrOk, RandomOk, CountsOk, TriedOk, SlotInBucket;
    if s.info[id].inTried { assert SlotsOf(s.newTab, id) == {}; }
  }

  method WriteRow(m: AddrManImpl, bucket: nat, unkIds: map<int, int>, ghost news: seq<int>, ghost order: seq<int>)
    returns (row: seq<int>)
    requires m.Shape() && Consistent(m.env, m.Abs()) && bucket < NEW_BUCKET_COUNT
    requires Disk.Enumerates(order, m.mapInfo) && Unknown(m.mapInfo, news, order, unkIds)
    ensures row == Disk.Row(Table(m.vvNew), news, bucket, BUCKET_SIZE)
  {
    hide Inv, Table, Disk.IndexOf, Distinct;
    ghost var s := m.Abs();
    row := [];
    var i := 0;
    while i < BUCKET_SIZE
      invariant 0 <= i <= BUCKET_SIZE
      invariant row == Disk.Row(Table(m.vvNew), news, bucket, i)
    {
      TableAt(m.vvNew, Slot(bucket, i));
      if m.vvNew[bucket, i] != EMPTY {
        SlotOwner(m.env, s, Slot(bucket, i));
        Disk.Lists(order, m.mapInfo, m.vvNew[bucket, i]);
        row := row + [unkIds[m.vvNew[bucket, i]]];
      }
      i := i + 1;
    }
  }

  lemma SlotOwner(env: Env, s: Spec.State, slot: Slot)
    requires Consistent(env, s) && slot in s.newTab
    ensures s.newTab[slot] in s.info && !s.info[s.newTab[slot]].inTried
  {
  }

  // ----- Unserialize -----

  method ReadNew(m: AddrManImpl, rs: seq<Disk.Record>)
    requires m.Shape() && Sound(m.env, m.Abs()) && m.mapInfo == map[]
    modifies m`mapInfo, m`mapAddr, m`vRandom, m`mNetworkCounts
    ensures m.Abs() == Disk.LoadNew(m.env, old(m.Abs()), rs) && Sound(m.env, m.Abs())
    ensures forall k :: k in m.mapInfo <==> 0 <= k < |rs|
  {
    hide Table, Sound, Disk.LoadNewOne;
    ghost var s := m.Abs();
    var n := 0;
    while n < |rs|
      invariant 0 <= n <= |rs| && Sound(m.env, m.Abs())
      invariant m.Abs() == Disk.LoadNew(m.env, s, rs[..n])
      invariant forall k :: k in m.mapInfo <==> 0 <= k < n
      modifies m`mapInfo, m`mapAddr, m`vRandom, m`mNetworkCounts
    {
      assert rs[..n + 1][..n] == rs[..n];
      ReadNewOne(m, n, rs[n]);
      n := n + 1;
    }
    assert rs[..n] == rs;
  }

  method ReadNewOne(m: AddrManImpl, n: nat, r: Disk.Record)
    requires m.Shape() && Sound(m.env, m.Abs()) && n !in m.mapInfo
    modifies m`mapInfo, m`mapAddr, m`vRandom, m`mNetworkCounts
    ensures m.Abs() == Disk.LoadNewOne(m.env, old(m.Abs()), n, r) && Sound(m.env, m.Abs())
    ensures m.mapInfo == old(m.mapInfo)[n := m.mapInfo[n]]
  {
    hide Table, Sound, Spec.AddCount;
    LoadNewSound(m.env, m.Abs(), n, r);
    CountsNotNegative(m.env, m.Abs(), GetNetwork(m.env, r.addr.service.ip));
    var i := Disk.FromRecord(r).(randomPos := |m.vRandom|);
    m.mapInfo := m.mapInfo[n := i];
    m.mapAddr := m.mapAddr[r.addr.service := n];
    m.vRandom := m.vRandom + [n];
    m.AddCount(Spec.NetOf(m.env, i), 1, 0);
  }

  method ReadTried(m: AddrManImpl, rs: seq<Disk.Record>)
    requires m.Shape() && Sound(m.env, m.Abs()) && Below(m.mapInfo, m.nIdCount) && m.nIdCount >= 0
    modifies m, m.vvTried
    ensures m.Abs() == Disk.LoadTried(m.env, old(m.Abs()), rs)
                       .(nTried := old(m.nTried) - Disk.Lost(m.env, old(m.Abs()), rs))
    ensures Sound(m.env, m.Abs())
    ensures old(m.mapInfo.Keys) <= m.mapInfo.Keys
  {
    hide Table, Sound, Disk.LoadTriedOne, Disk.Takes;
    ghost var s := m.Abs();
    var nLost, n := 0, 0;
    while n < |rs|
      invariant 0 <= n <= |rs| && m.nIdCount >= 0 && Below(m.mapInfo, m.nIdCount)
      invariant m.Abs() == Disk.LoadTried(m.env, s, rs[..n]) && nLost == Disk.Lost(m.env, s, rs[..n])
      invariant m.nTried == s.nTried
      invariant Sound(m.env, m.Abs()) && s.info.Keys <= m.mapInfo.Keys
      modifies m, m.vvTried
    {
      assert rs[..n + 1][..n] == rs[..n];
      var kept := ReadTriedOne(m, rs[n]);
      if !kept { nLost := nLost + 1; }
      n := n + 1;
    }
    assert rs[..n] == rs;
    SoundIgnoresTried(m.env, m.Abs(), m.nTried - nLost);
    m.nTried := m.nTried - nLost;
  }

  method ReadTriedOne(m: AddrManImpl, r: Disk.Record) returns (kept: bool)
    requires m.Shape() && Sound(m.env, m.Abs()) && Below(m.mapInfo, m.nIdCount) && m.nIdCount >= 0
    modifies m, m.vvTried
    ensures m.Abs() == Disk.LoadTriedOne(m.env, old(m.Abs()), r) && kept == Disk.Takes(m.env, old(m.Abs()), r)
    ensures Sound(m.env, m.Abs()) && Below(m.mapInfo, m.nIdCount) && m.nIdCount >= 0
    ensures old(m.mapInfo.Keys) <= m.mapInfo.Keys && m.nTried == old(m.nTried)
  {
    hide Table, Sound, TriedSlot, Spec.AddCount, Spec.CountOf, IsRoutable;
    LoadTriedSound(m.env, m.Abs(), r);
    var slot := TriedSlot(m.env, m.nKey, r.addr.service);
    TableAt(m.vvTried, slot);
    kept := m.env.valid(r.addr.service.ip) && m.vvTried[slot.bucket, slot.pos] == EMPTY;
    if kept { TakeSlot(m, r, slot); }
  }

  method TakeSlot(m: AddrManImpl, r: Disk.Record, slot: Slot)
    requires m.Shape() && Sound(m.env, m.Abs()) && m.nIdCount >= 0
    requires slot == TriedSlot(m.env, m.nKey, r.addr.service) && Disk.Takes(m.env, m.Abs(), r)
    modifies m`vRandom, m`mapInfo, m`mapAddr, m`nIdCount, m`mNetworkCounts, m.vvTried
    ensures m.Abs() == Disk.LoadTriedOne(m.env, old(m.Abs()), r)
  {
    hide Table, Sound, TriedSlot, Spec.AddCount, Spec.CountOf, IsRoutable;
    CountsNotNegative(m.env, m.Abs(), GetNetwork(m.env, r.addr.service.ip));
    var i := Disk.FromRecord(r).(randomPos := |m.vRandom|, inTried := true);
    Store(m.vvTried, slot, m.nIdCount);
    m.AddCount(Spec.NetOf(m.env, i), 0, 1);
    m.vRandom := m.vRandom + [m.nIdCount];
    m.mapInfo := m.mapInfo[m.nIdCount := i];
    m.mapAddr := m.mapAddr[r.addr.service := m.nIdCount];
    m.nIdCount := m.nIdCount + 1;
  }

  method ReadPlaces(buckets: seq<seq<int>>, nNew: int) returns (ps: seq<Disk.Place>)
    ensures ps == Disk.Places(buckets, nNew)
  {
    ps := [];
    var bucket := 0;
    while bucket < |buckets|
      invariant 0 <= bucket <= |buckets| && ps == Disk.Places(buckets[..bucket], nNew)
    {
      ghost var before := ps;
      var row := buckets[bucket];
      var n := 0;
      while n < |row|
        invariant 0 <= n <= |row| && ps == before + Disk.RowPlaces(bucket, row[..n], nNew)
      {
        assert row[..n + 1][..n] == row[..n];
        if 0 <= row[n] < nNew {
          ps := ps + [Disk.Place(bucket, row[n])];
        }
        n := n + 1;
      }
      assert row[..n] == row;
      assert buckets[..bucket + 1][..bucket] == buckets[..bucket];
      bucket := bucket + 1;
    }
    assert buckets[..bucket] == buckets;
  }

  method PutBack(m: AddrManImpl, restoreBucketing: bool, p: Disk.Place)
    requires m.Shape() && Sound(m.env, m.Abs()) && p.index in m.mapInfo && p.index >= 0
    requires restoreBucketing ==> 0 <= p.bucket < NEW_BUCKET_COUNT
    modifies m`mapInfo, m.vvNew
    ensures m.Abs() == Disk.Restore(m.env, old(m.Abs()), restoreBucketing, p) && Sound(m.env, m.Abs())
    ensures m.mapInfo.Keys == old(m.mapInfo.Keys)
  {
    hide Table, Sound, SlotInBucket, NewSlot;
    var info := m.mapInfo[p.index];
    if !m.env.valid(info.addr.service.ip) { return; }
    if info.refCount >= NEW_BUCKETS_PER_ADDRESS { return; }
    var slot := SlotInBucket(m.env, m.nKey, info.addr.service, p.bucket);
    var home := NewSlot(m.env, m.nKey, info.addr.service, info.source);
    PutNewSound(m.env, m.Abs(), slot, p.index);
    PutNewSound(m.env, m.Abs(), home, p.index);
    TableAt(m.vvNew, home);
    if restoreBucketing { TableAt(m.vvNew, slot); }
    if restoreBucketing && m.vvNew[slot.bucket, slot.pos] == EMPTY {
      Store(m.vvNew, slot, p.index);
      m.mapInfo := m.mapInfo[p.index := info.(refCount := info.refCount + 1)];
    } else if m.vvNew[home.bucket, home.pos] == EMPTY {
      Store(m.vvNew, home, p.index);
      m.mapInfo := m.mapInfo[p.index := info.(refCount := info.refCount + 1)];
    }
  }

  method PutAllBack(m: AddrManImpl, restoreBucketing: bool, ps: seq<Disk.Place>)
    requires m.Shape() && Sound(m.env, m.Abs())
    requires forall k | 0 <= k < |ps| :: ps[k].index in m.mapInfo && ps[k].index >= 0
    requires restoreBucketing ==> forall k | 0 <= k < |ps| :: 0 <= ps[k].bucket < NEW_BUCKET_COUNT
    modifies m`mapInfo, m.vvNew
    ensures m.Abs() == Disk.RestoreAll(m.env, old(m.Abs()), restoreBucketing, ps) && Sound(m.env, m.Abs())
  {
    hide Table, Sound, Disk.Restore;
    ghost var s := m.Abs();
    var n := 0;
    while n < |ps|
      invariant 0 <= n <= |ps| && Sound(m.env, m.Abs())
      invariant m.Abs() == Disk.RestoreAll(m.env, s, restoreBucketing, ps[..n])
      invariant m.mapInfo.Keys == s.info.Keys
      modifies m`mapInfo, m.vvNew
    {
      assert ps[..n + 1][..n] == ps[..n];
      PutBack(m, restoreBucketing, ps[n]);
      n := n + 1;
    }
    assert ps[..n] == ps;
  }

  method PruneAll(m: AddrManImpl) returns (ghost order: seq<int>)
    requires m.Shape() && Sound(m.env, m.Abs())
    modifies m
    ensures m.Abs() == Disk.Prune(m.env, old(m.Abs()), order) && Disk.Enumerates(order, old(m.mapInfo))
  {
    hide Table, Sound, Spec.Delete, Visited;
    ghost var s := m.Abs();
    order := [];
    var todo := m.mapInfo.Keys;
    NoneVisited(s.info);
    while todo != {}
      invariant Sound(m.env, m.Abs()) && m.Abs() == Disk.Prune(m.env, s, order) && Visited(order, s.info, todo)
      decreases |todo|
      modifies m
    {
      var id := Pick(todo);
      ghost var next := order + [id];
      assert next[..|order|] == order;
      if id in m.mapInfo && m.mapInfo[id].inTried == false && m.mapInfo[id].refCount == 0 {
        NewCounted(m.env, m.Abs(), id);
        SoundOrder(m.env, m.Abs());
        DeleteSound(m.env, m.Abs(), id);
        m.Delete(id);
      }
      OneVisited(order, s.info, todo, id);
      order := next;
      todo := todo - {id};
    }
    AllVisited(order, s.info);
  }

  /** order lists, once each, the live ids that are not in todo. */
  ghost predicate Visited(order: seq<int>, info: InfoMap, todo: set<int>) {
    Distinct(order) && todo <= info.Keys && forall id :: id in order <==> id in info && id !in todo
  }

  lemma NoneVisited(info: InfoMap)
    ensures Visited([], info, info.Keys)
  {
  }

  lemma OneVisited(order: seq<int>, info: InfoMap, todo: set<int>, id: int)
    requires Visited(order, info, todo) && id in todo
    ensures Visited(order + [id], info, todo - {id})
  {
    forall j ensures j in order + [id] <==> j in info && j !in todo - {id} {
      assert j in order + [id] <==> j in order || j == id;
    }
  }

  lemma AllVisited(order: seq<int>, info: InfoMap)
    requires Visited(order, info, {})
    ensures Disk.Enumerates(order, info)
  {
  }

  /** The body of the file: both record lists and the bucket contents. */
  method ReadBody(m: AddrManImpl, f: Disk.File)
    requires m.Shape() && Disk.Framed(f) && f.nNew >= 0 && f.nTried >= 0
    requires m.Abs() == Spec.Initial(f.key).(nNew := f.nNew, nTried := f.nTried)
    modifies m, m.vvNew, m.vvTried
    ensures m.Abs() == Disk.Load(m.env, f) && Sound(m.env, m.Abs())
  {
    hide Table, Sound, Disk.LoadNew, Disk.LoadTried, Disk.Lost, Disk.RestoreAll, Disk.Places, Disk.RestoresBucketing;
    FreshSound(m.env, m.Abs());
    ReadNew(m, f.newRecords);
    SoundIgnoresIds(m.env, m.Abs(), f.nNew);
    m.nIdCount := m.nNew;
    ghost var read := m.mapInfo.Keys;
    ReadTried(m, f.triedRecords);
    var ps := ReadPlaces(f.buckets, f.nNew);
    PlacesRange(f.buckets, f.nNew);
    forall k | 0 <= k < |ps| ensures ps[k].index in m.mapInfo { assert ps[k].index in read; }
    BucketingFits(m.env, f);
    PutAllBack(m, Disk.RestoresBucketing(m.env, f), ps);
  }

  /**
    Loading any file into a fresh manager: no internal assertion fails, the outcome is the specified one, and a
    manager that was loaded satisfies the invariant, whatever the file holds.
   */
  method Unserialize(m: AddrManImpl, f: Disk.File) returns (status: Disk.Status, ghost order: seq<int>)
    requires m.Shape() && Disk.Framed(f) && m.Abs() == Spec.Initial(m.nKey)
    modifies m, m.vvNew, m.vvTried
    ensures status == Disk.Unserialize(m.env, f, order).0
    ensures status.Loaded? || status.CheckFailed? ==> m.Abs() == Disk.Unserialize(m.env, f, order).1
    ensures status.Loaded? || status.CheckFailed? ==> Reads(m.env, f, order, m.Abs())
    ensures status.Loaded? ==> m.Ok()
  {
    hide Table, Sound, CheckOk, Valid, Disk.Load, Disk.Prune, Disk.Framed, Disk.Enumerates, Reads;
    order := [];
    if f.compat < Disk.INCOMPATIBILITY_BASE { return Disk.BadCompat, order; }
    if f.compat - Disk.INCOMPATIBILITY_BASE > Disk.FILE_FORMAT { return Disk.UnsupportedFormat, order; }
    m.nKey, m.nNew, m.nTried := f.key, f.nNew, f.nTried;
    if f.nNew > NEW_BUCKET_COUNT * BUCKET_SIZE || f.nNew < 0 { return Disk.BadNew, order; }
    if f.nTried > TRIED_BUCKET_COUNT * BUCKET_SIZE || f.nTried < 0 { return Disk.BadTried, order; }
    ReadBody(m, f);
    order := PruneAll(m);
    var code := CheckAddrman(m);
    status := if code == 0 then Disk.Loaded else Disk.CheckFailed;
    LoadedReads(m.env, f, order);
    if status.Loaded? { LoadedIsValid(m.env, f, order); }
  }
}
