/** A manager's own file is accepted by a node that groups addresses in any other way. */
module AddrManMoved {
  import opened Prelude
  import opened AddrTypes
  import opened AddrManInvariant
  import opened AddrManOps
  import opened AddrManCheck
  import opened AddrManLoaded
  import opened AddrManRebucket
  import Spec = AddrManSpec
  import Disk = AddrManDisk

  // ----- files that describe a manager -----

  /** No two records have the same address. */
  ghost predicate Separate(rs: seq<Disk.Record>) {
    forall j, k | 0 <= j < k < |rs| :: rs[j].addr.service != rs[k].addr.service
  }

  function Services(rs: seq<Disk.Record>): set<Service> { set k | 0 <= k < |rs| :: rs[k].addr.service }

  /** A file whose records could stand side by side in one manager. */
  ghost predicate Sane(f: Disk.File) {
    && Disk.Framed(f) && f.nNew >= 0 && f.nTried >= 0 && f.key != 0
    && Separate(f.newRecords) && Separate(f.triedRecords) && Services(f.newRecords) !! Services(f.triedRecords)
    && (forall k | 0 <= k < |f.newRecords| :: f.newRecords[k].lastSuccess >= 0)
    && (forall k | 0 <= k < |f.triedRecords| :: f.triedRecords[k].lastSuccess > 0)
  }

  // ----- the invariant before any place is restored -----

  lemma {:induction false} LoadNewAddr(env: Env, s: Spec.State, rs: seq<Disk.Record>)
    requires s.info == map[] && s.addr == map[] && Separate(rs)
    ensures var t := Disk.LoadNew(env, s, rs); AddrOk(t.info, t.addr) && t.addr.Keys == Services(rs)
    decreases |rs|
  {
    hide Spec.AddCount, Spec.NetOf, AddrOk, Disk.FromRecord;
    if rs == [] {
      NoAddr();
    } else {
      var n := |rs| - 1;
      LoadNewAddr(env, s, rs[..n]);
      NewRecordsRead(env, s, rs[..n]);
      var t := Disk.LoadNew(env, s, rs[..n]);
      MoreServices(rs);
      var i := Disk.FromRecord(rs[n]).(randomPos := |t.random|);
      OfRecord(rs[n]);
      AddrGrows(t.info, t.addr, n, i);
    }
  }

  lemma NoAddr()
    ensures AddrOk(map[], map[])
  {
  }

  lemma OfRecord(r: Disk.Record)
    ensures Disk.FromRecord(r).addr == r.addr && Disk.FromRecord(r).lastSuccess == r.lastSuccess
    ensures Disk.FromRecord(r).lastTry == 0
  {
  }

  lemma MoreServices(rs: seq<Disk.Record>)
    requires rs != [] && Separate(rs)
    ensures var n := |rs| - 1;
            && Separate(rs[..n]) && Services(rs) == Services(rs[..n]) + {rs[n].addr.service}
            && rs[n].addr.service !in Services(rs[..n])
  {
  }

  lemma AddrGrows(info: InfoMap, addr: map<Service, int>, id: int, i: AddrInfo)
    requires AddrOk(info, addr) && id !in info && i.addr.service !in addr
    ensures AddrOk(info[id := i], addr[i.addr.service := id])
  {
  }

  lemma TriedGrows(env: Env, key: Key, info: InfoMap, tab: map<Slot, int>, id: int, i: AddrInfo)
    requires TriedOk(env, key, info, tab) && id !in info && i.inTried
    requires TriedSlot(env, key, i.addr.service) !in tab
    ensures TriedOk(env, key, info[id := i], tab[TriedSlot(env, key, i.addr.service) := id])
  {
    hide TriedSlot;
  }

  lemma TimesGrow(info: InfoMap, id: int, i: AddrInfo)
    requires TimesOk(info) && TimeOk(i)
    ensures TimesOk(info[id := i])
  {
  }

  lemma {:induction false} LoadTriedAddr(env: Env, s: Spec.State, rs: seq<Disk.Record>)
    requires AddrOk(s.info, s.addr) && Below(s.info, s.idCount) && s.idCount >= 0 && s.triedTab == map[]
    requires Separate(rs) && s.addr.Keys !! Services(rs)
    requires forall k | k in s.info :: !s.info[k].inTried && TimeOk(s.info[k])
    requires forall k | 0 <= k < |rs| :: rs[k].lastSuccess > 0
    ensures var t := Disk.LoadTried(env, s, rs);
            && AddrOk(t.info, t.addr) && TriedOk(env, s.key, t.info, t.triedTab) && TimesOk(t.info)
            && t.addr.Keys <= s.addr.Keys + Services(rs) && t.key == s.key && Below(t.info, t.idCount) && t.idCount >= 0
    decreases |rs|
  {
    hide TriedSlot, Disk.LoadTriedOne, AddrOk, TriedOk, TimesOk, Below;
    if rs == [] {
      NoTriedYet(env, s);
    } else {
      var n := |rs| - 1;
      LoadTriedAddr(env, s, rs[..n]);
      var t := Disk.LoadTried(env, s, rs[..n]);
      MoreServices(rs);
      TriedOneAddr(env, t, rs[n]);
    }
  }

  lemma NoTriedYet(env: Env, s: Spec.State)
    requires s.triedTab == map[] && forall k | k in s.info :: !s.info[k].inTried && TimeOk(s.info[k])
    ensures TriedOk(env, s.key, s.info, s.triedTab) && TimesOk(s.info)
  {
  }

  lemma TriedOneAddr(env: Env, s: Spec.State, r: Disk.Record)
    requires AddrOk(s.info, s.addr) && Below(s.info, s.idCount) && s.idCount >= 0
    requires TriedOk(env, s.key, s.info, s.triedTab) && TimesOk(s.info)
    requires r.addr.service !in s.addr && r.lastSuccess > 0
    ensures var t := Disk.LoadTriedOne(env, s, r);
            && AddrOk(t.info, t.addr) && TriedOk(env, s.key, t.info, t.triedTab) && TimesOk(t.info)
            && t.addr.Keys <= s.addr.Keys + {r.addr.service} && t.key == s.key
            && Below(t.info, t.idCount) && t.idCount >= 0
  {
    hide TriedSlot, Spec.AddCount, Spec.NetOf, AddrOk, TriedOk, TimesOk, Disk.FromRecord;
    var i := Disk.FromRecord(r).(randomPos := |s.random|, inTried := true);
    NextIdFree(s.info, s.idCount);
    OfRecord(r);
    if Disk.Takes(env, s, r) {
      AddrGrows(s.info, s.addr, s.idCount, i);
      TriedGrows(env, s.key, s.info, s.triedTab, s.idCount, i);
      TimesGrow(s.info, s.idCount, i);
    }
  }

  lemma RangeSize(a: set<int>, n: nat)
    requires forall k :: k in a <==> 0 <= k < n
    ensures |a| == n
  {
    var ids := Disk.UpTo(n);
    DistinctSize(ids);
    forall k ensures k in Members(ids) <==> k in a {
      if 0 <= k < n { assert ids[k] == k; }
    }
    SameInts(Members(ids), a);
  }

  /** The new entries that have no slot. */
  function Waiting(info: InfoMap): set<int> { set id | id in info && !info[id].inTried && info[id].refCount == 0 }

  /** What holds from the reading of the records to the end of the pruning. */
  ghost predicate LoadInv(env: Env, s: Spec.State) { Inv(env, s, {}, Waiting(s.info)) && s.collisions == {} }

  lemma LooseIsWaiting(env: Env, s: Spec.State, loose: set<int>)
    requires Inv(env, s, {}, loose) && s.collisions == {}
    ensures LoadInv(env, s)
  {
    hide RandomOk, AddrOk, TriedOk, NewOk, CountsOk;
  }

  lemma TalliesOf(env: Env, info: InfoMap, nNew: nat, n: nat)
    requires nNew <= n && forall k :: k in info <==> 0 <= k < n
    requires forall k | k in info :: info[k].inTried <==> k >= nNew
    ensures |Tally(env, info, {}, false, None)| == nNew && |Tally(env, info, {}, true, None)| == n - nNew
  {
    hide Spec.NetOf;
    TablesPartition(env, info);
    RangeSize(Tally(env, info, {}, false, None), nNew);
    RangeSize(info.Keys, n);
    assert |info| == |info.Keys|;
  }

  lemma UnrestoredInv(env: Env, f: Disk.File)
    requires Sane(f)
    ensures LoadInv(env, Unrestored(env, f))
  {
    hide Unrestored, Sound, Tidy, AddrOk, TriedOk, TimesOk, Tally, NetExact, RandomOk, CountsOk, Services, Separate,
         IsRecord;
    var u := Unrestored(env, f);
    UnrestoredFacts(env, f);
    UnrestoredTidy(env, f);
    UnrestoredIndexes(env, f);
    NewAreNew(env, f);
    TalliesOf(env, u.info, f.nNew, u.idCount);
    SoundParts(env, u);
    CheckedCounts(env, u.info, u.nNew, u.nTried, u.counts);
    forall id { Disk.NoSlots(id); }
  }

  lemma SoundParts(env: Env, s: Spec.State)
    requires Sound(env, s)
    ensures RandomOk(s.info, s.random) && NetExact(env, s.info, s.counts)
  {
  }

  lemma NewAreNew(env: Env, f: Disk.File)
    requires Disk.Framed(f) && f.nNew >= 0 && f.nTried >= 0
    ensures var u := Unrestored(env, f); forall k | k in u.info :: u.info[k].inTried <==> k >= f.nNew
  {
    hide Unrestored;
    UnrestoredFacts(env, f);
  }

  lemma UnrestoredIndexes(env: Env, f: Disk.File)
    requires Sane(f)
    ensures var u := Unrestored(env, f);
            AddrOk(u.info, u.addr) && TriedOk(env, u.key, u.info, u.triedTab) && TimesOk(u.info)
  {
    hide Disk.LoadNew, Disk.LoadTried, Disk.Lost, AddrOk, TriedOk, TimesOk, Separate, Services;
    var s := Spec.Initial(f.key).(nNew := f.nNew, nTried := f.nTried);
    NewRecordsRead(env, s, f.newRecords);
    LoadNewAddr(env, s, f.newRecords);
    LoadTriedAddr(env, Disk.LoadNew(env, s, f.newRecords).(idCount := f.nNew), f.triedRecords);
  }

  // ----- restoring places and pruning keep it -----

  lemma RestoreKeeps(env: Env, s: Spec.State, restoreBucketing: bool, p: Disk.Place)
    requires LoadInv(env, s) && PlaceOk(s, restoreBucketing, p) && !s.info[p.index].inTried
    ensures LoadInv(env, Disk.Restore(env, s, restoreBucketing, p))
  {
    hide Inv, SlotInBucket, Spec.PutNew;
    var i := s.info[p.index];
    var slot := SlotInBucket(env, s.key, i.addr.service, p.bucket);
    var home := NewSlot(env, s.key, i.addr.service, i.source);
    if env.valid(i.addr.service.ip) && i.refCount < NEW_BUCKETS_PER_ADDRESS {
      if restoreBucketing && slot !in s.newTab {
        PutNewKeeps(env, s, slot, p.index, Waiting(s.info));
        PutNewFrame(s, slot, p.index);
        LooseIsWaiting(env, Spec.PutNew(s, slot, p.index), Waiting(s.info) - {p.index});
      } else if home !in s.newTab {
        PutNewKeeps(env, s, home, p.index, Waiting(s.info));
        PutNewFrame(s, home, p.index);
        LooseIsWaiting(env, Spec.PutNew(s, home, p.index), Waiting(s.info) - {p.index});
      }
    }
  }

  lemma PutNewFrame(s: Spec.State, slot: Slot, id: int)
    ensures Spec.PutNew(s, slot, id).collisions == s.collisions
  {
  }

  lemma {:induction false} RestoreAllKeeps(env: Env, s: Spec.State, restoreBucketing: bool, ps: seq<Disk.Place>)
    requires LoadInv(env, s) && Unplaced(s)
    requires forall k | 0 <= k < |ps| :: PlaceOk(s, restoreBucketing, ps[k]) && !s.info[ps[k].index].inTried
    ensures LoadInv(env, Disk.RestoreAll(env, s, restoreBucketing, ps))
    decreases |ps|
  {
    hide LoadInv, Disk.Restore, Unplaced, Referenced;
    if ps != [] {
      var n := |ps| - 1;
      RestoreAllKeeps(env, s, restoreBucketing, ps[..n]);
      UnplacedFacts(env, s);
      AllSettled(env, s, restoreBucketing, ps[..n], n);
      assert PlaceOk(s, restoreBucketing, ps[n]);
      RestoreKeeps(env, Disk.RestoreAll(env, s, restoreBucketing, ps[..n]), restoreBucketing, ps[n]);
    }
  }

  lemma {:induction false} PruneKeeps(env: Env, s: Spec.State, order: seq<int>)
    requires LoadInv(env, s)
    ensures LoadInv(env, Disk.Prune(env, s, order))
    decreases |order|
  {
    hide Inv, Spec.Delete;
    if order != [] {
      var n := |order| - 1;
      PruneKeeps(env, s, order[..n]);
      var t := Disk.Prune(env, s, order[..n]);
      if order[n] in t.info && !t.info[order[n]].inTried && t.info[order[n]].refCount == 0 {
        DeleteKeeps(env, t, order[n], {}, Waiting(t.info));
        DeleteAddr(env, t, order[n]);
        LooseIsWaiting(env, Spec.Delete(env, t, order[n]), Waiting(t.info) - {order[n]});
      }
    }
  }

  lemma LoadKeeps(env: Env, f: Disk.File)
    requires Sane(f)
    ensures LoadInv(env, Disk.Load(env, f))
  {
    hide LoadInv, Unrestored, Disk.Load, Disk.RestoreAll, Disk.Places, Disk.RestoresBucketing, IsRecord, Unplaced;
    var u, bucketing, ps := Unrestored(env, f), Disk.RestoresBucketing(env, f), Disk.Places(f.buckets, f.nNew);
    UnrestoredInv(env, f);
    UnrestoredFacts(env, f);
    NewAreNew(env, f);
    LoadSteps(env, f);
    PlacesRange(f.buckets, f.nNew);
    BucketingFits(env, f);
    RestoreAllKeeps(env, u, bucketing, ps);
  }

  /** Every file whose records could stand in one manager is accepted, whatever the node's grouping. */
  lemma SaneFileLoads(env: Env, f: Disk.File, order: seq<int>)
    requires Sane(f) && f.compat == Disk.INCOMPATIBILITY_BASE + Disk.FILE_FORMAT
    requires f.nNew <= NEW_BUCKET_COUNT * BUCKET_SIZE && f.nTried <= TRIED_BUCKET_COUNT * BUCKET_SIZE
    requires Disk.Enumerates(order, Disk.Load(env, f).info)
    ensures var (status, t) := Disk.Unserialize(env, f, order);
            status == Disk.Loaded && Reads(env, f, order, t) && Valid(env, t)
  {
    hide Sane, LoadInv, Disk.Load, Disk.Prune, CheckOk, Disk.Enumerates;
    var v := Disk.Load(env, f);
    LoadKeeps(env, f);
    PruneKeeps(env, v, order);
    SaneParts(f);
    LoadTidy(env, f);
    SoundOrder(env, v);
    NoneWaiting(env, v, order);
    ConsistentPasses(env, Disk.Prune(env, v, order));
  }

  lemma SaneParts(f: Disk.File)
    requires Sane(f)
    ensures Disk.Framed(f) && f.nNew >= 0 && f.nTried >= 0
  {
  }

  lemma NoneWaiting(env: Env, s: Spec.State, order: seq<int>)
    requires LoadInv(env, Disk.Prune(env, s, order)) && Disk.Enumerates(order, s.info)
    requires RandomOk(s.info, s.random)
    ensures Valid(env, Disk.Prune(env, s, order))
  {
    hide Inv, RandomOk, Disk.Prune;
    var t := Disk.Prune(env, s, order);
    PruneEffect(env, s, order);
    forall k | k in t.info ensures t.info[k].inTried || t.info[k].refCount != 0 {
      assert SameButPlace(t.info[k], s.info[k]);
      Disk.Lists(order, s.info, k);
    }
    assert Waiting(t.info) == {};
  }

  // ----- the manager's own file -----

  lemma OwnFileSane(env: Env, s: Spec.State, order: seq<int>)
    requires Consistent(env, s) && Disk.Enumerates(order, s.info)
    ensures var f := Disk.Serialize(env, s, order);
            && Sane(f) && f.compat == Disk.INCOMPATIBILITY_BASE + Disk.FILE_FORMAT
            && f.nNew <= NEW_BUCKET_COUNT * BUCKET_SIZE && f.nTried <= TRIED_BUCKET_COUNT * BUCKET_SIZE
  {
    hide Inv, Disk.Enumerates, Disk.Listed, Disk.Records, Disk.Row, Separate, Services;
    var news, trieds := Disk.Listed(s.info, order, false), Disk.Listed(s.info, order, true);
    Disk.SplitFacts(env, s, order);
    Disk.ListEnumerates(s.info, order);
    Disk.RecordsSize(s.info, news);
    Disk.RecordsSize(s.info, trieds);
    Disk.CountersInRange(env, s);
    OwnRecordsApart(env, s, news, trieds);
    forall k | 0 <= k < |news| ensures Disk.Records(s.info, news)[k].lastSuccess >= 0 {
      Disk.RecordAt(s.info, news, k);
      RecordTimes(env, s, news[k]);
    }
    forall k | 0 <= k < |trieds| ensures Disk.Records(s.info, trieds)[k].lastSuccess > 0 {
      Disk.RecordAt(s.info, trieds, k);
      RecordTimes(env, s, trieds[k]);
    }
    KeyNotNull(env, s);
  }

  lemma KeyNotNull(env: Env, s: Spec.State)
    requires Consistent(env, s)
    ensures s.key != 0
  {
  }

  lemma ServiceAt(env: Env, s: Spec.State, list: seq<int>, k: nat)
    requires Consistent(env, s) && k < |list| && list[k] in s.info
    ensures |Disk.Records(s.info, list)| == |list|
    ensures var a := Disk.Records(s.info, list)[k].addr.service; a in s.addr && s.addr[a] == list[k]
  {
    hide Disk.Records, RandomOk, TriedOk, NewOk, RefsOk, CountsOk;
    Disk.RecordAt(s.info, list, k);
    var id := list[k];
    assert s.info[id].addr.service in s.addr && s.addr[s.info[id].addr.service] == id;
  }

  lemma OwnRecordsApart(env: Env, s: Spec.State, news: seq<int>, trieds: seq<int>)
    requires Consistent(env, s) && Disk.Enumerates(news + trieds, s.info)
    ensures Separate(Disk.Records(s.info, news)) && Separate(Disk.Records(s.info, trieds))
    ensures Services(Disk.Records(s.info, news)) !! Services(Disk.Records(s.info, trieds))
  {
    hide Inv, Disk.Records;
    Disk.RecordsSize(s.info, news);
    Disk.RecordsSize(s.info, trieds);
    var list, n := news + trieds, |news|;
    forall k | 0 <= k < |list| ensures list[k] in s.info { Disk.Lists(list, s.info, list[k]); }
    forall k | 0 <= k < |news| ensures NamedBy(s, Disk.Records(s.info, news)[k], list[k]) {
      assert list[k] == news[k];
      ServiceAt(env, s, news, k);
    }
    forall k | 0 <= k < |trieds| ensures NamedBy(s, Disk.Records(s.info, trieds)[k], list[n + k]) {
      assert list[n + k] == trieds[k];
      ServiceAt(env, s, trieds, k);
    }
  }

  ghost predicate NamedBy(s: Spec.State, r: Disk.Record, id: int) {
    r.addr.service in s.addr && s.addr[r.addr.service] == id
  }

  /** The place of an entry in its table's list of records. */
  function RecordOf(s: Spec.State, order: seq<int>, id: int): int
    requires id in s.info
  {
    Disk.IndexOf(Disk.Listed(s.info, order, s.info[id].inTried), id)
  }

  lemma RecordOfFacts(env: Env, s: Spec.State, order: seq<int>, id: int)
    requires Consistent(env, s) && Disk.Enumerates(order, s.info) && id in s.info
    ensures var f, n := Disk.Serialize(env, s, order), RecordOf(s, order, id);
            var rs := if s.info[id].inTried then f.triedRecords else f.newRecords;
            0 <= n < |rs| && rs[n] == Disk.ToRecord(s.info[id])
  {
    hide Inv, Disk.Enumerates, Disk.Listed, Disk.IndexOf, Disk.Records, Disk.Row, Disk.ToRecord;
    Disk.Lists(order, s.info, id);
    Disk.ListedMember(s.info, order, s.info[id].inTried, id);
    Disk.RecordAt(s.info, Disk.Listed(s.info, order, s.info[id].inTried), RecordOf(s, order, id));
  }

  /** Every new entry is listed in some bucket of the file. */
  lemma NewIsListed(env: Env, s: Spec.State, order: seq<int>, id: int) returns (j: nat)
    requires Consistent(env, s) && Disk.Enumerates(order, s.info) && id in s.info && !s.info[id].inTried
    ensures var f := Disk.Serialize(env, s, order);
            var ps := Disk.Places(f.buckets, f.nNew);
            j < |ps| && ps[j].index == RecordOf(s, order, id)
  {
    hide Inv, Disk.Enumerates, Disk.Listed, Disk.IndexOf, Disk.Records, Disk.Row, Disk.AllSlots, Disk.DistinctSlots;
    var news, f := Disk.Listed(s.info, order, false), Disk.Serialize(env, s, order);
    var slots := Disk.AllSlots(s.newTab, NEW_BUCKET_COUNT);
    Disk.SplitFacts(env, s, order);
    Disk.PlacesAre(s.newTab, news, f.buckets);
    Disk.AllSlotsFacts(s.newTab, NEW_BUCKET_COUNT);
    var slot := SomeSlot(env, s, id);
    j :| 0 <= j < |slots| && slots[j] == slot;
  }

  lemma SomeSlot(env: Env, s: Spec.State, id: int) returns (slot: Slot)
    requires Consistent(env, s) && id in s.info && !s.info[id].inTried
    ensures slot in s.newTab && s.newTab[slot] == id && InNewTable(slot)
  {
    hide RandomOk, AddrOk, TriedOk, CountsOk, SlotInBucket;
    assert |SlotsOf(s.newTab, id)| > 0;
    slot := Witness(SlotsOf(s.newTab, id));
  }

  /** A manager's own file is accepted by a node with any other grouping, and the result is a valid manager. */
  lemma OwnFileLoadsAnywhere(env: Env, env': Env, s: Spec.State, order: seq<int>, order': seq<int>)
    requires Valid(env, s) && Disk.Enumerates(order, s.info)
    requires Disk.Enumerates(order', Disk.Load(env', Disk.Serialize(env, s, order)).info)
    ensures var f := Disk.Serialize(env, s, order);
            var (status, t) := Disk.Unserialize(env', f, order');
            status == Disk.Loaded && Valid(env', t) && Reads(env', f, order', t) && f.key == s.key
  {
    hide Valid, Disk.Serialize, Disk.Load, Disk.Unserialize, Disk.Enumerates, Sane, Reads;
    ValidParts(env, s);
    OwnFileSane(env, s, order);
    OwnKey(env, s, order);
    SaneFileLoads(env', Disk.Serialize(env, s, order), order');
  }

  /**
    Across the two nodes a new entry is lost only with an address that is not valid there or to another entry that
    holds its home slot. If the grouping has changed, its home slot is the only one it can have.
   */
  lemma NewEntryMoves(env: Env, env': Env, s: Spec.State, order: seq<int>, order': seq<int>, id: int)
    requires Valid(env, s) && Disk.Enumerates(order, s.info) && id in s.info && !s.info[id].inTried
    requires Disk.Enumerates(order', Disk.Load(env', Disk.Serialize(env, s, order)).info)
    ensures var n, t := RecordOf(s, order, id), Disk.Unserialize(env', Disk.Serialize(env, s, order), order').1;
            var i := s.info[id];
            && (!env'.valid(i.addr.service.ip) ==> n !in t.info)
            && (env'.valid(i.addr.service.ip) ==>
                  || (n in t.info && IsRecord(t.info[n], Disk.ToRecord(i), false))
                  || (n !in t.info && TakenByOther(t.newTab, NewSlot(env', s.key, i.addr.service, i.source), n)))
            && (env'.asmapVersion != env.asmapVersion ==>
                  forall slot | slot in t.newTab && t.newTab[slot] == n ::
                    slot == NewSlot(env', s.key, i.addr.service, i.source))
  {
    hide Valid, Disk.Serialize, Disk.Load, Disk.Unserialize, Disk.Enumerates, RecordOf, Disk.Places, IsRecord, Reads,
         NewSlot, SlotInBucket, Disk.RestoresBucketing, Disk.ToRecord;
    var f, n := Disk.Serialize(env, s, order), RecordOf(s, order, id);
    var t := Disk.Unserialize(env', f, order').1;
    ValidParts(env, s);
    OwnFileLoadsAnywhere(env, env', s, order, order');
    RecordOfFacts(env, s, order, id);
    StoredService(s.info[id]);
    var j := NewIsListed(env, s, order, id);
    ListedSurvives(env', f, order', t, j);
    if !env'.valid(s.info[id].addr.service.ip) { InvalidDropped(env', f, order', t, n); }
    GroupingChanged(env, env', s, order);
    if env'.asmapVersion != env.asmapVersion { RebucketedHome(env', f, order', t, n); }
  }

  lemma GroupingChanged(env: Env, env': Env, s: Spec.State, order: seq<int>)
    ensures Disk.RestoresBucketing(env', Disk.Serialize(env, s, order)) <==> env'.asmapVersion == env.asmapVersion
  {
  }

  /** A tried entry with a valid address finds its slot occupied, by itself if no earlier tried record has that slot. */
  lemma TriedEntryMoves(env: Env, env': Env, s: Spec.State, order: seq<int>, order': seq<int>, id: int)
    requires Valid(env, s) && Disk.Enumerates(order, s.info) && id in s.info && s.info[id].inTried
    requires Disk.Enumerates(order', Disk.Load(env', Disk.Serialize(env, s, order)).info)
    ensures var f, n := Disk.Serialize(env, s, order), RecordOf(s, order, id);
            var t := Disk.Unserialize(env', f, order').1;
            var i := s.info[id];
            var slot := TriedSlot(env', s.key, i.addr.service);
            && 0 <= n < |f.triedRecords|
            && (env'.valid(i.addr.service.ip) ==> slot in t.triedTab)
            && (Wins(env', s.key, f.triedRecords, n) ==>
                  slot in t.triedTab && t.triedTab[slot] in t.info
                  && IsRecord(t.info[t.triedTab[slot]], Disk.ToRecord(i), true))
  {
    hide Valid, Disk.Serialize, Disk.Load, Disk.Unserialize, Disk.Enumerates, RecordOf, IsRecord, Reads, TriedSlot,
         Wins, Disk.ToRecord;
    var f, n := Disk.Serialize(env, s, order), RecordOf(s, order, id);
    var t := Disk.Unserialize(env', f, order').1;
    var slot := TriedSlot(env', s.key, s.info[id].addr.service);
    ValidParts(env, s);
    OwnFileLoadsAnywhere(env, env', s, order, order');
    RecordOfFacts(env, s, order, id);
    StoredService(s.info[id]);
    TriedOfFile(env', f, order', t, slot);
    assert env'.valid(s.info[id].addr.service.ip) ==> Claims(env', f.key, f.triedRecords[n], slot);
    if Wins(env', s.key, f.triedRecords, n) { TriedWinner(env', f, order', t, n); }
  }

  lemma ValidParts(env: Env, s: Spec.State)
    requires Valid(env, s)
    ensures Consistent(env, s)
  {
  }

  lemma OwnKey(env: Env, s: Spec.State, order: seq<int>)
    ensures Disk.Serialize(env, s, order).key == s.key
  {
  }

  lemma StoredService(i: AddrInfo)
    ensures Disk.ToRecord(i).addr.service == i.addr.service && Disk.ToRecord(i).source == i.source
  {
  }

  // ----- the header -----

  /** Which headers are refused, and as what. */
  lemma HeaderRules(env: Env, f: Disk.File, order: seq<int>)
    ensures var status := Disk.Unserialize(env, f, order).0;
            var readable := 32 <= f.compat <= 36;
            && (status == Disk.BadCompat <==> f.compat < 32)
            && (status == Disk.UnsupportedFormat <==> f.compat > 36)
            && (status == Disk.BadNew <==> readable && !(0 <= f.nNew <= 65536))
            && (status == Disk.BadTried <==> readable && 0 <= f.nNew <= 65536 && !(0 <= f.nTried <= 16384))
  {
    hide CheckOk, Disk.Load, Disk.Prune;
  }

  /** Buckets are restored if there are 1024, marked by bit 30 from format 1 on, and the grouping is the same. */
  lemma BucketingRule(env: Env, f: Disk.File)
    ensures Disk.RestoresBucketing(env, f) <==>
            && f.uBuckets == (if f.format >= 1 then 0x4000_0400 else 0x400)
            && env.asmapVersion == (if f.format >= 2 then f.asmapVersion else 0)
  {
  }

  lemma OwnHeader(env: Env, s: Spec.State, order: seq<int>)
    ensures var f := Disk.Serialize(env, s, order);
            && f.format == 4 && f.compat == 36 && f.uBuckets == 0x4000_0400 && f.asmapVersion == env.asmapVersion
            && f.key == s.key && f.nNew == s.nNew && f.nTried == s.nTried
  {
  }
}
