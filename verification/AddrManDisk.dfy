/**
  Saving and loading an address manager (Serialize and Unserialize), and the
  proof that loading what was saved restores every entry and every slot, up to
  the names of the ids.
 */
module AddrManDisk {
  import opened Prelude
  import opened AddrTypes
  import opened AddrManSpec
  import opened AddrManInvariant
  import opened AddrManOps
  import opened AddrManCheck

  // ----- the file (src/addrman.cpp:137-173, src/addrman_impl.h:165-186) -----

  const V1_DETERMINISTIC := 1
  const V2_ASMAP := 2
  const V4_MULTIPORT := 4
  const FILE_FORMAT := V4_MULTIPORT
  const INCOMPATIBILITY_BASE := 32
  const BIT30 := 0x4000_0000

  /** What is stored of an entry. */
  datatype Record = Record(addr: Address, source: NetAddr, lastSuccess: int, attempts: int)

  /** The fields of the file, in order. Each list is as long as the counter before it announces. */
  datatype File = File(
    format: nat,
    compat: nat,
    key: Key,
    nNew: int,
    nTried: int,
    uBuckets: int,
    newRecords: seq<Record>,
    triedRecords: seq<Record>,
    buckets: seq<seq<int>>,
    asmapVersion: nat)

  datatype Status = Loaded | BadCompat | UnsupportedFormat | BadNew | BadTried | CheckFailed

  /** n ^ (1 << 30) */
  function FlipBit30(n: int): int { if (n / BIT30) % 2 == 0 then n + BIT30 else n - BIT30 }

  function BucketCount(f: File): int { if f.format >= V1_DETERMINISTIC then FlipBit30(f.uBuckets) else f.uBuckets }

  predicate Framed(f: File) {
    && |f.newRecords| == Max(0, f.nNew)
    && |f.triedRecords| == Max(0, f.nTried)
    && |f.buckets| == Max(0, BucketCount(f))
  }

  /** The time of an address is stored in 32 bits. */
  const TIME_WORD := 0x1_0000_0000

  function Stored(a: Address): Address { a.(time := a.time % TIME_WORD) }

  function ToRecord(i: AddrInfo): Record { Record(Stored(i.addr), i.source, i.lastSuccess, i.attempts) }

  function FromRecord(r: Record): AddrInfo {
    NewAddrInfo(r.addr, r.source).(lastSuccess := r.lastSuccess, attempts := r.attempts)
  }

  // ----- saving -----

  /** The ids of one table, in the order in which mapInfo is iterated. */
  function Listed(info: InfoMap, order: seq<int>, inTried: bool): seq<int>
    decreases |order|
  {
    if order == [] then []
    else
      var n := |order| - 1;
      var before := Listed(info, order[..n], inTried);
      if order[n] in info && info[order[n]].inTried == inTried then before + [order[n]] else before
  }

  function IndexOf(list: seq<int>, id: int): (k: int)
    ensures id in list ==> 0 <= k < |list| && list[k] == id
    decreases |list|
  {
    if list == [] then -1
    else if list[|list| - 1] == id then |list| - 1
    else IndexOf(list[..|list| - 1], id)
  }

  function Records(info: InfoMap, list: seq<int>): seq<Record> {
    seq(|list|, k requires 0 <= k < |list| => ToRecord(if list[k] in info then info[list[k]] else NO_INFO))
  }

  /** The occupied slots of bucket b below position p, in order. */
  function RowSlots(tab: map<Slot, int>, b: int, p: nat): seq<Slot> {
    if p == 0 then []
    else RowSlots(tab, b, p - 1) + (if Slot(b, p - 1) in tab then [Slot(b, p - 1)] else [])
  }

  /** The occupied slots of the first n buckets, in order. */
  function AllSlots(tab: map<Slot, int>, n: nat): seq<Slot> {
    if n == 0 then [] else AllSlots(tab, n - 1) + RowSlots(tab, n - 1, BUCKET_SIZE)
  }

  function Row(tab: map<Slot, int>, list: seq<int>, b: int, p: nat): seq<int> {
    if p == 0 then []
    else Row(tab, list, b, p - 1) + (if Slot(b, p - 1) in tab then [IndexOf(list, tab[Slot(b, p - 1)])] else [])
  }

  function Serialize(env: Env, s: State, order: seq<int>): File {
    var news, trieds := Listed(s.info, order, false), Listed(s.info, order, true);
    File(FILE_FORMAT, INCOMPATIBILITY_BASE + V4_MULTIPORT, s.key, s.nNew, s.nTried, FlipBit30(NEW_BUCKET_COUNT),
         Records(s.info, news), Records(s.info, trieds),
         seq(NEW_BUCKET_COUNT, b => Row(s.newTab, news, b, BUCKET_SIZE)), env.asmapVersion)
  }

  lemma {:induction false} ListedMembers(info: InfoMap, order: seq<int>, inTried: bool)
    ensures forall id :: id in Listed(info, order, inTried) <==>
            id in order && id in info && info[id].inTried == inTried
    decreases |order|
  {
    if order != [] {
      var n := |order| - 1;
      ListedMembers(info, order[..n], inTried);
      assert order == order[..n] + [order[n]];
    }
  }

  // ----- loading -----

  /** One record of the new table becomes entry n. */
  function LoadNewOne(env: Env, s: State, n: int, r: Record): State {
    var i := FromRecord(r).(randomPos := |s.random|);
    s.(info := s.info[n := i], addr := s.addr[r.addr.service := n], random := s.random + [n],
       counts := AddCount(s.counts, NetOf(env, i), 1, 0))
  }

  function LoadNew(env: Env, s: State, rs: seq<Record>): State
    decreases |rs|
  {
    if rs == [] then s
    else LoadNewOne(env, LoadNew(env, s, rs[..|rs| - 1]), |rs| - 1, rs[|rs| - 1])
  }

  /** A record of the tried table is kept if its address is valid and its slot is still free. */
  predicate Takes(env: Env, s: State, r: Record) {
    env.valid(r.addr.service.ip) && TriedSlot(env, s.key, r.addr.service) !in s.triedTab
  }

  function LoadTriedOne(env: Env, s: State, r: Record): State {
    if Takes(env, s, r) then
      var i := FromRecord(r).(randomPos := |s.random|, inTried := true);
      s.(idCount := s.idCount + 1, info := s.info[s.idCount := i], addr := s.addr[r.addr.service := s.idCount],
         random := s.random + [s.idCount], triedTab := s.triedTab[TriedSlot(env, s.key, r.addr.service) := s.idCount],
         counts := AddCount(s.counts, NetOf(env, i), 0, 1))
    else s
  }

  function LoadTried(env: Env, s: State, rs: seq<Record>): State
    decreases |rs|
  {
    if rs == [] then s else LoadTriedOne(env, LoadTried(env, s, rs[..|rs| - 1]), rs[|rs| - 1])
  }

  /** How many records of the tried table were not kept. */
  function Lost(env: Env, s: State, rs: seq<Record>): nat
    decreases |rs|
  {
    if rs == [] then 0
    else
      var n := |rs| - 1;
      Lost(env, s, rs[..n]) + if Takes(env, LoadTried(env, s, rs[..n]), rs[n]) then 0 else 1
  }

  /** A remembered position in the new table: a bucket and the index of a new record. */
  datatype Place = Place(bucket: int, index: int)

  function RowPlaces(b: int, row: seq<int>, nNew: int): seq<Place>
    decreases |row|
  {
    if row == [] then []
    else
      var n := |row| - 1;
      RowPlaces(b, row[..n], nNew) + (if 0 <= row[n] < nNew then [Place(b, row[n])] else [])
  }

  function Places(buckets: seq<seq<int>>, nNew: int): seq<Place>
    decreases |buckets|
  {
    if buckets == [] then []
    else Places(buckets[..|buckets| - 1], nNew) + RowPlaces(|buckets| - 1, buckets[|buckets| - 1], nNew)
  }

  /** Puts a new record back into its bucket, or into the one of its primary source. */
  function Restore(env: Env, s: State, restoreBucketing: bool, p: Place): State {
    var i := At(s, p.index);
    var slot := SlotInBucket(env, s.key, i.addr.service, p.bucket);
    var home := NewSlot(env, s.key, i.addr.service, i.source);
    if !env.valid(i.addr.service.ip) || i.refCount >= NEW_BUCKETS_PER_ADDRESS then s
    else if restoreBucketing && slot !in s.newTab then PutNew(s, slot, p.index)
    else if home !in s.newTab then PutNew(s, home, p.index)
    else s
  }

  function RestoreAll(env: Env, s: State, restoreBucketing: bool, ps: seq<Place>): State
    decreases |ps|
  {
    if ps == [] then s
    else Restore(env, RestoreAll(env, s, restoreBucketing, ps[..|ps| - 1]), restoreBucketing, ps[|ps| - 1])
  }

  /** Deletes the new entries that got no slot; `order` is the iteration order of mapInfo. */
  function Prune(env: Env, s: State, order: seq<int>): State
    decreases |order|
  {
    if order == [] then s
    else
      var n := |order| - 1;
      var t := Prune(env, s, order[..n]);
      if order[n] in t.info && !t.info[order[n]].inTried && t.info[order[n]].refCount == 0
      then Delete(env, t, order[n]) else t
  }

  predicate RestoresBucketing(env: Env, f: File) {
    BucketCount(f) == NEW_BUCKET_COUNT && (if f.format >= V2_ASMAP then f.asmapVersion else 0) == env.asmapVersion
  }

  /** Everything up to the final check. */
  function Load(env: Env, f: File): State {
    var s := Initial(f.key).(nNew := f.nNew, nTried := f.nTried);
    var t := LoadNew(env, s, f.newRecords).(idCount := f.nNew);
    var u := LoadTried(env, t, f.triedRecords).(nTried := f.nTried - Lost(env, t, f.triedRecords));
    RestoreAll(env, u, RestoresBucketing(env, f), Places(f.buckets, f.nNew))
  }

  /** The outcome of Unserialize on a fresh manager; `order` is the order in which the last loop visits the entries. */
  ghost function Unserialize(env: Env, f: File, order: seq<int>): (Status, State) {
    var s := Initial(f.key).(nNew := f.nNew, nTried := f.nTried);
    if f.compat < INCOMPATIBILITY_BASE then (BadCompat, s)
    else if f.compat - INCOMPATIBILITY_BASE > FILE_FORMAT then (UnsupportedFormat, s)
    else if f.nNew > NEW_BUCKET_COUNT * BUCKET_SIZE || f.nNew < 0 then (BadNew, s)
    else if f.nTried > TRIED_BUCKET_COUNT * BUCKET_SIZE || f.nTried < 0 then (BadTried, s)
    else
      var t := Prune(env, Load(env, f), order);
      (if CheckOk(env, t) then Loaded else CheckFailed, t)
  }

  // ----- the manager that loading is to produce -----

  /** order lists every live id once. */
  ghost predicate Enumerates(order: seq<int>, info: InfoMap) {
    Distinct(order) && forall id :: id in order <==> id in info
  }

  /** The loaded form of an entry: memory-only statistics are forgotten, its place and references are rebuilt. */
  function Restored(i: AddrInfo, pos: int, refs: int): AddrInfo {
    FromRecord(ToRecord(i)).(randomPos := pos, inTried := i.inTried, refCount := refs)
  }

  function MidInfo(info: InfoMap, list: seq<int>, n: int, part: map<Slot, int>): InfoMap {
    map k | 0 <= k < n && k < |list| && list[k] in info :: Restored(info[list[k]], k, |SlotsOf(part, list[k])|)
  }

  /** A map to ids, renamed by position in the list and cut off at n. */
  function Renamed<K>(m: map<K, int>, list: seq<int>, n: int): map<K, int> {
    map x | x in m && IndexOf(list, m[x]) < n :: IndexOf(list, m[x])
  }

  function MidCounts(env: Env, info: InfoMap, list: seq<int>, n: nat): map<Network, Count>
    requires n <= |list|
  {
    if n == 0 then map[]
    else
      var i := if list[n - 1] in info then info[list[n - 1]] else NO_INFO;
      AddCount(MidCounts(env, info, list, n - 1), NetOf(env, i), if i.inTried then 0 else 1, if i.inTried then 1 else 0)
  }

  function UpTo(n: nat): seq<int> { seq(n, k => k) }

  /** After n entries have been read and the slots in `part` have been filled. */
  function Mid(env: Env, s: State, list: seq<int>, n: nat, part: map<Slot, int>, idCount: int): State
    requires n <= |list|
  {
    State(s.key, idCount, MidInfo(s.info, list, n, part), Renamed(s.addr, list, n), UpTo(n),
          s.nTried, Renamed(s.triedTab, list, n), s.nNew, Renamed(part, list, |list|), 1, {},
          MidCounts(env, s.info, list, n))
  }

  // ----- lists -----

  lemma {:induction false} ListedDistinct(info: InfoMap, order: seq<int>, inTried: bool)
    requires Distinct(order)
    ensures Distinct(Listed(info, order, inTried))
    decreases |order|
  {
    if order != [] {
      var n := |order| - 1;
      ListedDistinct(info, order[..n], inTried);
      ListedMembers(info, order[..n], inTried);
    }
  }

  lemma {:induction false} IndexOfDistinct(list: seq<int>, k: int)
    requires Distinct(list) && 0 <= k < |list|
    ensures IndexOf(list, list[k]) == k
    decreases |list|
  {
    if k < |list| - 1 {
      IndexOfDistinct(list[..|list| - 1], k);
    }
  }

  lemma ListedSize(env: Env, info: InfoMap, order: seq<int>, inTried: bool)
    requires Enumerates(order, info)
    ensures |Listed(info, order, inTried)| == |Tally(env, info, {}, inTried, None)|
  {
    var list := Listed(info, order, inTried);
    ListedMembers(info, order, inTried);
    ListedDistinct(info, order, inTried);
    DistinctSize(list);
    SameInts(Members(list), Tally(env, info, {}, inTried, None));
  }

  /** news, followed by trieds, enumerates the live ids. */
  lemma ListEnumerates(info: InfoMap, order: seq<int>)
    requires Enumerates(order, info)
    ensures Enumerates(Listed(info, order, false) + Listed(info, order, true), info)
  {
    ListedMembers(info, order, false);
    ListedMembers(info, order, true);
    ListedDistinct(info, order, false);
    ListedDistinct(info, order, true);
    var news, trieds := Listed(info, order, false), Listed(info, order, true);
    forall j, k | 0 <= j < |news| && 0 <= k < |trieds| ensures news[j] != trieds[k] {
      assert news[j] in news && trieds[k] in trieds;
    }
  }

  lemma IndexInPrefix(news: seq<int>, trieds: seq<int>, id: int)
    requires Distinct(news + trieds) && id in news
    ensures IndexOf(news + trieds, id) == IndexOf(news, id)
  {
    var k := IndexOf(news, id);
    assert (news + trieds)[k] == id;
    IndexOfDistinct(news + trieds, k);
  }

  // ----- reading the records -----

  lemma MidInfoStep(info: InfoMap, list: seq<int>, n: nat, part: map<Slot, int>)
    requires n < |list| && list[n] in info
    ensures MidInfo(info, list, n + 1, part) ==
            MidInfo(info, list, n, part)[n := Restored(info[list[n]], n, |SlotsOf(part, list[n])|)]
  {
    hide Restored, SlotsOf;
  }

  lemma RenamedAddrStep(info: InfoMap, addr: map<Service, int>, list: seq<int>, n: nat)
    requires AddrOk(info, addr) && Enumerates(list, info) && n < |list|
    ensures list[n] in list && list[n] in info
    ensures Renamed(addr, list, n + 1) == Renamed(addr, list, n)[info[list[n]].addr.service := n]
  {
    hide IndexOf, Distinct;
    assert list[n] in list;
    IndexOfDistinct(list, n);
    forall a | a in addr ensures 0 <= IndexOf(list, addr[a]) && list[IndexOf(list, addr[a])] == addr[a] {
      IndexFound(list, addr[a]);
    }
  }

  lemma IndexFound(list: seq<int>, id: int)
    requires id in list
    ensures 0 <= IndexOf(list, id) < |list| && list[IndexOf(list, id)] == id
  {
  }

  lemma RenamedTriedStep(env: Env, key: Key, info: InfoMap, tab: map<Slot, int>, list: seq<int>, n: nat)
    requires TriedOk(env, key, info, tab) && Enumerates(list, info) && n < |list|
    ensures list[n] in list && list[n] in info
    ensures var slot := TriedSlot(env, key, info[list[n]].addr.service);
            && (info[list[n]].inTried ==>
                  slot !in Renamed(tab, list, n) && Renamed(tab, list, n + 1) == Renamed(tab, list, n)[slot := n])
            && (!info[list[n]].inTried ==> Renamed(tab, list, n + 1) == Renamed(tab, list, n))
  {
    hide IndexOf, Distinct, TriedSlot;
    assert list[n] in list;
    IndexOfDistinct(list, n);
    forall slot | slot in tab ensures 0 <= IndexOf(list, tab[slot]) && list[IndexOf(list, tab[slot])] == tab[slot] {
      IndexFound(list, tab[slot]);
    }
  }

  lemma NoSlots(id: int)
    ensures SlotsOf(map[], id) == {}
  {
  }

  lemma RecordAt(info: InfoMap, list: seq<int>, n: nat)
    requires n < |list| && list[n] in info
    ensures |Records(info, list)| == |list|
    ensures Records(info, list)[n] == ToRecord(info[list[n]])
    ensures Records(info, list)[..n + 1][..n] == Records(info, list)[..n]
  {
  }

  /** Reading one more record of the new table. */
  lemma LoadNewStep(env: Env, s: State, list: seq<int>, n: nat)
    requires Consistent(env, s) && Enumerates(list, s.info) && n < |list|
    requires list[n] in s.info && !s.info[list[n]].inTried
    ensures LoadNewOne(env, Mid(env, s, list, n, map[], 0), n, ToRecord(s.info[list[n]])) ==
            Mid(env, s, list, n + 1, map[], 0)
  {
    hide RandomOk, NewOk, RefsOk, CountsOk, TimesOk, IdsOk, FloatingOk, AddrOk, TriedOk,
      Enumerates, MidInfo, Renamed, SlotsOf, AddCount, TriedSlot;
    MidInfoStep(s.info, list, n, map[]);
    NoSlots(list[n]);
    RenamedAddrStep(s.info, s.addr, list, n);
    RenamedTriedStep(env, s.key, s.info, s.triedTab, list, n);
    assert UpTo(n + 1) == UpTo(n) + [n];
  }

  lemma {:induction false} LoadNewIs(env: Env, s: State, news: seq<int>, trieds: seq<int>, n: nat)
    requires Consistent(env, s) && Enumerates(news + trieds, s.info) && n <= |news|
    requires forall k | 0 <= k < |news| :: news[k] in s.info && !s.info[news[k]].inTried
    ensures n <= |Records(s.info, news)|
    ensures LoadNew(env, Initial(s.key).(nNew := s.nNew, nTried := s.nTried), Records(s.info, news)[..n]) ==
            Mid(env, s, news + trieds, n, map[], 0)
    decreases n
  {
    hide Inv, Enumerates, LoadNewOne, Mid, Records;
    if n == 0 {
      MidEmpty(env, s, news + trieds);
      RecordsSize(s.info, news);
    } else {
      var list := news + trieds;
      LoadNewIs(env, s, news, trieds, n - 1);
      RecordAt(s.info, news, n - 1);
      assert list[n - 1] == news[n - 1];
      LoadNewStep(env, s, list, n - 1);
    }
  }

  lemma RecordsSize(info: InfoMap, list: seq<int>)
    ensures |Records(info, list)| == |list|
  {
  }

  lemma MidEmpty(env: Env, s: State, list: seq<int>)
    requires Consistent(env, s) && Enumerates(list, s.info)
    ensures Mid(env, s, list, 0, map[], 0) == Initial(s.key).(nNew := s.nNew, nTried := s.nTried)
  {
    hide Inv, Enumerates, Renamed, SlotsOf;
    IdsAreListed(env, s, list);
    RenamedNone(s.addr, list);
    RenamedNone(s.triedTab, list);
    RenamedNone<Slot>(map[], list);
    assert MidInfo(s.info, list, 0, map[]) == map[];
  }

  lemma RenamedNone<K>(m: map<K, int>, list: seq<int>)
    requires forall x | x in m :: m[x] in list
    ensures Renamed(m, list, 0) == map[]
    ensures m == map[] ==> Renamed(m, list, |list|) == map[]
  {
    hide IndexOf;
    forall x | x in m ensures 0 <= IndexOf(list, m[x]) { IndexFound(list, m[x]); }
  }

  lemma IdsAreListed(env: Env, s: State, list: seq<int>)
    requires Consistent(env, s) && Enumerates(list, s.info)
    ensures forall a | a in s.addr :: s.addr[a] in list
    ensures forall slot | slot in s.triedTab :: s.triedTab[slot] in list
    ensures forall slot | slot in s.newTab :: s.newTab[slot] in list
  {
    hide RandomOk, RefsOk, CountsOk, TimesOk, TriedSlot, SlotInBucket, Distinct;
    forall a | a in s.addr ensures s.addr[a] in list { Lists(list, s.info, s.addr[a]); }
    forall slot | slot in s.triedTab ensures s.triedTab[slot] in list { Lists(list, s.info, s.triedTab[slot]); }
    forall slot | slot in s.newTab ensures s.newTab[slot] in list { Lists(list, s.info, s.newTab[slot]); }
  }

  lemma Lists(list: seq<int>, info: InfoMap, id: int)
    requires Enumerates(list, info)
    ensures id in list <==> id in info
  {
  }

  lemma LoadTriedStep(env: Env, s: State, list: seq<int>, n: nat)
    requires Consistent(env, s) && Enumerates(list, s.info) && n < |list|
    requires list[n] in s.info && s.info[list[n]].inTried && env.valid(s.info[list[n]].addr.service.ip)
    ensures LoadTriedOne(env, Mid(env, s, list, n, map[], n), ToRecord(s.info[list[n]])) ==
            Mid(env, s, list, n + 1, map[], n + 1)
    ensures Takes(env, Mid(env, s, list, n, map[], n), ToRecord(s.info[list[n]]))
  {
    hide RandomOk, NewOk, RefsOk, CountsOk, TimesOk, IdsOk, FloatingOk, AddrOk, TriedOk,
      Enumerates, MidInfo, Renamed, SlotsOf, AddCount, TriedSlot;
    MidInfoStep(s.info, list, n, map[]);
    NoSlots(list[n]);
    RenamedAddrStep(s.info, s.addr, list, n);
    RenamedTriedStep(env, s.key, s.info, s.triedTab, list, n);
    assert UpTo(n + 1) == UpTo(n) + [n];
  }

  ghost predicate AllValid(env: Env, s: State) { forall id | id in s.info :: env.valid(s.info[id].addr.service.ip) }

  lemma {:induction false} LoadTriedIs(env: Env, s: State, news: seq<int>, trieds: seq<int>, n: nat)
    requires Consistent(env, s) && Enumerates(news + trieds, s.info) && n <= |trieds| && AllValid(env, s)
    requires forall k | 0 <= k < |trieds| :: trieds[k] in s.info && s.info[trieds[k]].inTried
    ensures n <= |Records(s.info, trieds)|
    ensures LoadTried(env, Mid(env, s, news + trieds, |news|, map[], |news|), Records(s.info, trieds)[..n]) ==
            Mid(env, s, news + trieds, |news| + n, map[], |news| + n)
    ensures Lost(env, Mid(env, s, news + trieds, |news|, map[], |news|), Records(s.info, trieds)[..n]) == 0
    decreases n
  {
    hide Inv, Enumerates, LoadTriedOne, Takes, Mid, Records;
    if n == 0 {
      RecordsSize(s.info, trieds);
    } else {
      var list := news + trieds;
      LoadTriedIs(env, s, news, trieds, n - 1);
      RecordAt(s.info, trieds, n - 1);
      assert list[|news| + n - 1] == trieds[n - 1];
      LoadTriedStep(env, s, list, |news| + n - 1);
    }
  }

  // ----- refilling the new table -----

  /** The part of a table on the listed slots. */
  function Filled(tab: map<Slot, int>, slots: seq<Slot>): map<Slot, int> {
    map slot | slot in tab && slot in slots :: tab[slot]
  }

  lemma MidInfoPut(info: InfoMap, list: seq<int>, part: map<Slot, int>, slot: Slot, k: nat)
    requires Distinct(list) && k < |list| && list[k] in info && slot !in part
    ensures var i := Restored(info[list[k]], k, |SlotsOf(part, list[k])|);
            && k in MidInfo(info, list, |list|, part) && MidInfo(info, list, |list|, part)[k] == i
            && MidInfo(info, list, |list|, part[slot := list[k]]) ==
               MidInfo(info, list, |list|, part)[k := i.(refCount := i.refCount + 1)]
  {
    hide SlotsOf;
    forall j | 0 <= j < |list| { SlotsPut(part, slot, list[k], list[j]); }
  }

  lemma RenamedPut(part: map<Slot, int>, list: seq<int>, slot: Slot, k: nat)
    requires Distinct(list) && k < |list| && slot !in part
    ensures Renamed(part[slot := list[k]], list, |list|) == Renamed(part, list, |list|)[slot := k]
    ensures slot !in Renamed(part, list, |list|)
  {
    hide IndexOf;
    IndexOfDistinct(list, k);
  }

  lemma RoomForSlot(env: Env, s: State, part: map<Slot, int>, slot: Slot)
    requires Consistent(env, s) && slot in s.newTab && slot !in part
    requires forall x | x in part :: x in s.newTab && part[x] == s.newTab[x]
    ensures s.newTab[slot] in s.info
    ensures |SlotsOf(part, s.newTab[slot])| < NEW_BUCKETS_PER_ADDRESS
    ensures slot == SlotInBucket(env, s.key, s.info[s.newTab[slot]].addr.service, slot.bucket)
  {
    hide RandomOk, TriedOk, AddrOk, CountsOk, SlotInBucket;
    var id := s.newTab[slot];
    NewHolder(env, s.key, s.info, s.newTab, {}, slot);
    var a, b := SlotsOf(part, id), SlotsOf(s.newTab, id);
    assert a + {slot} <= b && slot !in a;
    SubsetCardinality(a + {slot}, b);
  }

  /** One remembered slot is filled exactly as it was. */
  lemma RestoreStep(env: Env, s: State, list: seq<int>, part: map<Slot, int>, slot: Slot, idCount: int)
    requires Consistent(env, s) && Enumerates(list, s.info) && AllValid(env, s)
    requires slot in s.newTab && slot !in part && forall x | x in part :: x in s.newTab && part[x] == s.newTab[x]
    ensures Restore(env, Mid(env, s, list, |list|, part, idCount), true,
                    Place(slot.bucket, IndexOf(list, s.newTab[slot]))) ==
            Mid(env, s, list, |list|, part[slot := s.newTab[slot]], idCount)
  {
    hide Inv, Distinct, MidInfo, Renamed, SlotsOf, SlotInBucket, NewSlot, MidCounts, IndexOf;
    var id := s.newTab[slot];
    RoomForSlot(env, s, part, slot);
    IndexFound(list, id);
    var k := IndexOf(list, id);
    MidInfoPut(s.info, list, part, slot, k);
    RenamedPut(part, list, slot, k);
  }

  function SlotPlaces(tab: map<Slot, int>, list: seq<int>, slots: seq<Slot>): seq<Place> {
    seq(|slots|, k requires 0 <= k < |slots| =>
        Place(slots[k].bucket, IndexOf(list, if slots[k] in tab then tab[slots[k]] else 0)))
  }

  predicate DistinctSlots(slots: seq<Slot>) { forall j, k | 0 <= j < k < |slots| :: slots[j] != slots[k] }

  lemma {:induction false} RestoreIs(env: Env, s: State, list: seq<int>, slots: seq<Slot>, idCount: int)
    requires Consistent(env, s) && Enumerates(list, s.info) && AllValid(env, s)
    requires DistinctSlots(slots) && forall k | 0 <= k < |slots| :: slots[k] in s.newTab
    ensures RestoreAll(env, Mid(env, s, list, |list|, map[], idCount), true, SlotPlaces(s.newTab, list, slots)) ==
            Mid(env, s, list, |list|, Filled(s.newTab, slots), idCount)
    decreases |slots|
  {
    hide Inv, Enumerates, AllValid, Restore, Mid, IndexOf, SlotPlaces, Filled;
    if slots == [] {
      NothingFilled(s.newTab, list);
    } else {
      var n := |slots| - 1;
      RestoreIs(env, s, list, slots[..n], idCount);
      FilledStep(s.newTab, slots);
      RestoreStep(env, s, list, Filled(s.newTab, slots[..n]), slots[n], idCount);
      PlacesStep(s.newTab, list, slots);
    }
  }

  lemma NothingFilled(tab: map<Slot, int>, list: seq<int>)
    ensures Filled(tab, []) == map[] && SlotPlaces(tab, list, []) == []
  {
  }

  /** Filling one more slot. */
  lemma FilledStep(tab: map<Slot, int>, slots: seq<Slot>)
    requires slots != [] && DistinctSlots(slots) && forall k | 0 <= k < |slots| :: slots[k] in tab
    ensures var n := |slots| - 1;
            var part := Filled(tab, slots[..n]);
            && slots[n] !in part && (forall x | x in part :: x in tab && part[x] == tab[x])
            && Filled(tab, slots) == part[slots[n] := tab[slots[n]]]
  {
    var n := |slots| - 1;
    assert slots == slots[..n] + [slots[n]];
  }

  lemma PlacesStep(tab: map<Slot, int>, list: seq<int>, slots: seq<Slot>)
    requires slots != [] && forall k | 0 <= k < |slots| :: slots[k] in tab
    ensures var n := |slots| - 1;
            var ps := SlotPlaces(tab, list, slots);
            && |ps| == |slots| && ps[..n] == SlotPlaces(tab, list, slots[..n])
            && ps[n] == Place(slots[n].bucket, IndexOf(list, tab[slots[n]]))
  {
    hide IndexOf;
  }

  // ----- the saved rows name exactly the occupied slots -----

  lemma {:induction false} RowSlotsFacts(tab: map<Slot, int>, b: int, p: nat)
    ensures var row := RowSlots(tab, b, p);
            && (forall k | 0 <= k < |row| :: row[k] in tab && row[k].bucket == b && 0 <= row[k].pos < p)
            && DistinctSlots(row)
            && (forall q | 0 <= q < p && Slot(b, q) in tab :: Slot(b, q) in row)
  {
    if p > 0 { RowSlotsFacts(tab, b, p - 1); }
  }

  lemma {:induction false} AllSlotsFacts(tab: map<Slot, int>, n: nat)
    ensures var all := AllSlots(tab, n);
            && (forall k | 0 <= k < |all| :: all[k] in tab && all[k].bucket < n)
            && DistinctSlots(all)
            && (forall slot | slot in tab && 0 <= slot.bucket < n && 0 <= slot.pos < BUCKET_SIZE :: slot in all)
  {
    hide RowSlots, DistinctSlots;
    if n == 0 {
      NoneTwice();
    } else {
      AllSlotsFacts(tab, n - 1);
      RowSlotsFacts(tab, n - 1, BUCKET_SIZE);
      SlotsJoin(tab, AllSlots(tab, n - 1), RowSlots(tab, n - 1, BUCKET_SIZE), n - 1);
    }
  }

  lemma NoneTwice()
    ensures DistinctSlots([])
  {
  }

  lemma SlotsJoin(tab: map<Slot, int>, before: seq<Slot>, row: seq<Slot>, b: int)
    requires forall k | 0 <= k < |before| :: before[k] in tab && before[k].bucket < b
    requires forall k | 0 <= k < |row| :: row[k] in tab && row[k].bucket == b
    requires DistinctSlots(before) && DistinctSlots(row)
    requires forall slot | slot in tab && 0 <= slot.bucket < b && 0 <= slot.pos < BUCKET_SIZE :: slot in before
    requires forall p | 0 <= p < BUCKET_SIZE && Slot(b, p) in tab :: Slot(b, p) in row
    ensures forall k | 0 <= k < |before + row| :: (before + row)[k] in tab && (before + row)[k].bucket <= b
    ensures DistinctSlots(before + row)
    ensures forall slot | slot in tab && 0 <= slot.bucket <= b && 0 <= slot.pos < BUCKET_SIZE :: slot in before + row
  {
    forall slot | slot in tab && 0 <= slot.bucket <= b && 0 <= slot.pos < BUCKET_SIZE ensures slot in before + row {
      if slot.bucket == b { assert slot == Slot(b, slot.pos); }
    }
  }

  lemma {:induction false} RowPlacesAre(tab: map<Slot, int>, news: seq<int>, b: int, p: nat)
    requires forall slot | slot in tab :: tab[slot] in news
    ensures RowPlaces(b, Row(tab, news, b, p), |news|) == SlotPlaces(tab, news, RowSlots(tab, b, p))
  {
    hide IndexOf;
    if p > 0 {
      RowPlacesAre(tab, news, b, p - 1);
      var slot := Slot(b, p - 1);
      if slot in tab {
        IndexFound(news, tab[slot]);
        var row := Row(tab, news, b, p);
        assert row[..|row| - 1] == Row(tab, news, b, p - 1);
        SlotPlacesConcat(tab, news, RowSlots(tab, b, p - 1), [slot]);
      } else {
        assert RowSlots(tab, b, p) == RowSlots(tab, b, p - 1);
        assert Row(tab, news, b, p) == Row(tab, news, b, p - 1);
      }
    }
  }

  lemma SlotPlacesConcat(tab: map<Slot, int>, list: seq<int>, a: seq<Slot>, b: seq<Slot>)
    ensures SlotPlaces(tab, list, a + b) == SlotPlaces(tab, list, a) + SlotPlaces(tab, list, b)
  {
  }

  lemma {:induction false} PlacesAre(tab: map<Slot, int>, news: seq<int>, buckets: seq<seq<int>>)
    requires forall slot | slot in tab :: tab[slot] in news
    requires forall b | 0 <= b < |buckets| :: buckets[b] == Row(tab, news, b, BUCKET_SIZE)
    ensures Places(buckets, |news|) == SlotPlaces(tab, news, AllSlots(tab, |buckets|))
    decreases |buckets|
  {
    hide RowPlaces, Row, RowSlots;
    if buckets != [] {
      var n := |buckets| - 1;
      PlacesAre(tab, news, buckets[..n]);
      RowPlacesAre(tab, news, n, BUCKET_SIZE);
      SlotPlacesConcat(tab, news, AllSlots(tab, n), RowSlots(tab, n, BUCKET_SIZE));
    }
  }

  // ----- the loaded manager is consistent -----

  /** The manager with its ids renamed by position in the list and its memory-only statistics forgotten. */
  function Copy(env: Env, s: State, list: seq<int>): State { Mid(env, s, list, |list|, s.newTab, |list|) }

  lemma CopyInfo(info: InfoMap, list: seq<int>, part: map<Slot, int>)
    requires Enumerates(list, info)
    ensures var copy := MidInfo(info, list, |list|, part);
            forall k :: k in copy <==> 0 <= k < |list|
    ensures forall k | 0 <= k < |list| ::
              list[k] in info &&
              MidInfo(info, list, |list|, part)[k] == Restored(info[list[k]], k, |SlotsOf(part, list[k])|)
  {
    hide SlotsOf, Restored, Enumerates;
    forall k | 0 <= k < |list| ensures list[k] in info {
      assert list[k] in list;
      Lists(list, info, list[k]);
    }
  }

  lemma RenamedFacts<K>(m: map<K, int>, list: seq<int>)
    requires Distinct(list) && forall x | x in m :: m[x] in list
    ensures var r := Renamed(m, list, |list|);
            && r.Keys == m.Keys
            && (forall x | x in m :: 0 <= r[x] < |list| && list[r[x]] == m[x])
  {
    hide IndexOf, Distinct;
    forall x | x in m ensures 0 <= IndexOf(list, m[x]) < |list| && list[IndexOf(list, m[x])] == m[x] {
      IndexFound(list, m[x]);
    }
  }

  lemma CopyAddr(info: InfoMap, addr: map<Service, int>, list: seq<int>, part: map<Slot, int>)
    requires AddrOk(info, addr) && Enumerates(list, info)
    ensures AddrOk(MidInfo(info, list, |list|, part), Renamed(addr, list, |list|))
  {
    hide MidInfo, Renamed, SlotsOf, Restored, Enumerates, Distinct;
    CopyInfo(info, list, part);
    ListDistinct(list, info);
    forall a | a in addr ensures addr[a] in list { Lists(list, info, addr[a]); }
    RenamedFacts(addr, list);
    var copy, r := MidInfo(info, list, |list|, part), Renamed(addr, list, |list|);
    forall k | k in copy
      ensures copy[k].addr.service == info[list[k]].addr.service
              && copy[k].addr.service in r && r[copy[k].addr.service] == k
    {
      RestoredKeeps(info[list[k]], k, |SlotsOf(part, list[k])|);
      SamePlace(list, r[info[list[k]].addr.service], k);
    }
  }

  lemma CopyRandom(info: InfoMap, list: seq<int>, part: map<Slot, int>)
    requires Enumerates(list, info)
    ensures RandomOk(MidInfo(info, list, |list|, part), UpTo(|list|))
  {
    hide MidInfo, SlotsOf;
    CopyInfo(info, list, part);
  }

  lemma CopyTried(env: Env, key: Key, info: InfoMap, tab: map<Slot, int>, list: seq<int>, part: map<Slot, int>)
    requires TriedOk(env, key, info, tab) && Enumerates(list, info)
    ensures TriedOk(env, key, MidInfo(info, list, |list|, part), Renamed(tab, list, |list|))
  {
    hide MidInfo, Renamed, SlotsOf, TriedSlot, Restored, Enumerates, Distinct;
    CopyInfo(info, list, part);
    ListDistinct(list, info);
    forall slot | slot in tab ensures tab[slot] in list { Lists(list, info, tab[slot]); }
    RenamedFacts(tab, list);
    var copy, r := MidInfo(info, list, |list|, part), Renamed(tab, list, |list|);
    forall k | k in copy
      ensures copy[k].inTried == info[list[k]].inTried && copy[k].addr.service == info[list[k]].addr.service
    {
      RestoredKeeps(info[list[k]], k, |SlotsOf(part, list[k])|);
    }
    forall k | k in copy && copy[k].inTried
      ensures var slot := TriedSlot(env, key, copy[k].addr.service); slot in r && r[slot] == k
    {
      SamePlace(list, r[TriedSlot(env, key, copy[k].addr.service)], k);
    }
  }

  lemma ListDistinct(list: seq<int>, info: InfoMap)
    requires Enumerates(list, info)
    ensures Distinct(list)
  {
  }

  lemma SamePlace(list: seq<int>, j: int, k: int)
    requires Distinct(list) && 0 <= j < |list| && 0 <= k < |list| && list[j] == list[k]
    ensures j == k
  {
  }

  lemma RestoredKeeps(i: AddrInfo, pos: int, refs: int)
    ensures Restored(i, pos, refs).inTried == i.inTried && Restored(i, pos, refs).addr.service == i.addr.service
  {
  }

  lemma CopyNew(env: Env, key: Key, info: InfoMap, tab: map<Slot, int>, list: seq<int>)
    requires NewOk(env, key, info, tab, {}) && Enumerates(list, info)
    ensures NewOk(env, key, MidInfo(info, list, |list|, tab), Renamed(tab, list, |list|), {})
  {
    hide MidInfo, Renamed, SlotsOf, SlotInBucket;
    CopyInfo(info, list, tab);
    forall slot | slot in tab ensures tab[slot] in list { Lists(list, info, tab[slot]); }
    RenamedFacts(tab, list);
  }

  lemma CopySlots(tab: map<Slot, int>, list: seq<int>, k: int)
    requires Distinct(list) && (forall slot | slot in tab :: tab[slot] in list) && 0 <= k < |list|
    ensures SlotsOf(Renamed(tab, list, |list|), k) == SlotsOf(tab, list[k])
  {
    hide Renamed;
    RenamedFacts(tab, list);
  }

  lemma CopyRefs(info: InfoMap, tab: map<Slot, int>, list: seq<int>)
    requires RefsOk(info, tab, {}, {}) && Enumerates(list, info) && forall slot | slot in tab :: tab[slot] in list
    ensures RefsOk(MidInfo(info, list, |list|, tab), Renamed(tab, list, |list|), {}, {})
  {
    hide MidInfo, Renamed, SlotsOf;
    CopyInfo(info, list, tab);
    forall k | 0 <= k < |list| { CopySlots(tab, list, k); }
  }

  lemma CopyTimes(info: InfoMap, list: seq<int>, part: map<Slot, int>)
    requires TimesOk(info) && Enumerates(list, info)
    ensures TimesOk(MidInfo(info, list, |list|, part))
  {
    hide MidInfo, SlotsOf;
    CopyInfo(info, list, part);
  }

  /** The counters built while reading are those of the entries read. */
  lemma {:induction false} MidCountsExact(env: Env, info: InfoMap, list: seq<int>, n: nat, part: map<Slot, int>)
    requires n <= |list| && Enumerates(list, info)
    ensures var copy := MidInfo(info, list, n, part);
            CountsOk(env, copy, |Tally(env, copy, {}, false, None)|, |Tally(env, copy, {}, true, None)|,
                     MidCounts(env, info, list, n), {})
  {
    hide Tally, MidInfo, CountsOk, SlotsOf, Enumerates;
    if n == 0 {
      MidCountsStart(env, info, list, part);
    } else {
      MidCountsExact(env, info, list, n - 1, part);
      MidCountsStep(env, info, list, n - 1, part);
    }
  }

  lemma MidCountsStart(env: Env, info: InfoMap, list: seq<int>, part: map<Slot, int>)
    ensures CountsOk(env, MidInfo(info, list, 0, part), |Tally(env, MidInfo(info, list, 0, part), {}, false, None)|,
                     |Tally(env, MidInfo(info, list, 0, part), {}, true, None)|, map[], {})
  {
    hide Tally;
    assert MidInfo(info, list, 0, part) == map[];
    forall t, net ensures Tally(env, map[], {}, t, net) == {} { NoTally(env, t, net); }
  }

  lemma MidCountsStep(env: Env, info: InfoMap, list: seq<int>, n: nat, part: map<Slot, int>)
    requires n < |list| && Enumerates(list, info)
    requires var copy := MidInfo(info, list, n, part);
             CountsOk(env, copy, |Tally(env, copy, {}, false, None)|, |Tally(env, copy, {}, true, None)|,
                      MidCounts(env, info, list, n), {})
    ensures var copy := MidInfo(info, list, n + 1, part);
            CountsOk(env, copy, |Tally(env, copy, {}, false, None)|, |Tally(env, copy, {}, true, None)|,
                     MidCounts(env, info, list, n + 1), {})
  {
    hide Tally, SlotsOf, AddCount, Distinct, CountsOk, MidInfo;
    Lists(list, info, list[n]);
    MidInfoStep(info, list, n, part);
    MidInfoFresh(info, list, n, part);
    var before, after := MidInfo(info, list, n, part), MidInfo(info, list, n + 1, part);
    var counts := MidCounts(env, info, list, n);
    CountsMove(env, before, after, {}, {}, n, NetOf(env, after[n]),
               |Tally(env, before, {}, false, None)|, |Tally(env, before, {}, true, None)|, counts);
    CountsTotals(env, after, |Tally(env, before, {}, false, None)| + Counted(after, {}, n, false),
                 |Tally(env, before, {}, true, None)| + Counted(after, {}, n, true), MidCounts(env, info, list, n + 1));
  }

  lemma MidInfoFresh(info: InfoMap, list: seq<int>, n: nat, part: map<Slot, int>)
    ensures n !in MidInfo(info, list, n, part)
  {
  }

  lemma CountsTotals(env: Env, info: InfoMap, nNew: int, nTried: int, counts: map<Network, Count>)
    requires CountsOk(env, info, nNew, nTried, counts, {})
    ensures nNew == |Tally(env, info, {}, false, None)| && nTried == |Tally(env, info, {}, true, None)|
  {
  }

  lemma NoTally(env: Env, t: bool, net: Option<Network>)
    ensures Tally(env, map[], {}, t, net) == {}
  {
  }

  function Image(list: seq<int>, a: set<int>): set<int> { set k | k in a && 0 <= k < |list| :: list[k] }

  lemma {:induction false} ImageSize(list: seq<int>, a: set<int>)
    requires Distinct(list) && forall k | k in a :: 0 <= k < |list|
    ensures |Image(list, a)| == |a|
    decreases |a|
  {
    if a == {} {
      assert Image(list, a) == {};
    } else {
      var k := Witness(a);
      ImageSize(list, a - {k});
      assert Image(list, a) == Image(list, a - {k}) + {list[k]};
    }
  }

  /** Each class of entries has the same size before and after. */
  lemma CopyTally(env: Env, info: InfoMap, list: seq<int>, part: map<Slot, int>, inTried: bool, net: Option<Network>)
    requires Enumerates(list, info)
    ensures |Tally(env, MidInfo(info, list, |list|, part), {}, inTried, net)| == |Tally(env, info, {}, inTried, net)|
  {
    hide MidInfo, SlotsOf, IndexOf;
    var copy := MidInfo(info, list, |list|, part);
    CopyInfo(info, list, part);
    var a, b := Tally(env, copy, {}, inTried, net), Tally(env, info, {}, inTried, net);
    ImageSize(list, a);
    forall id ensures id in Image(list, a) <==> id in b {
      if id in b {
        IndexFound(list, id);
        assert IndexOf(list, id) in a;
      }
    }
    SameInts(Image(list, a), b);
  }

  lemma CopyCounts(env: Env, info: InfoMap, nNew: int, nTried: int, counts: map<Network, Count>, list: seq<int>,
                   part: map<Slot, int>)
    requires CountsOk(env, info, nNew, nTried, counts, {}) && Enumerates(list, info)
    ensures CountsOk(env, MidInfo(info, list, |list|, part), nNew, nTried, MidCounts(env, info, list, |list|), {})
    ensures forall net :: CountOf(MidCounts(env, info, list, |list|), net) == CountOf(counts, net)
  {
    hide Tally, Enumerates, MidInfo, MidCounts, CountOf;
    MidCountsExact(env, info, list, |list|, part);
    CopyTally(env, info, list, part, false, None);
    CopyTally(env, info, list, part, true, None);
    forall net
      ensures CountOf(MidCounts(env, info, list, |list|), net) == CountOf(counts, net)
    {
      CopyTally(env, info, list, part, false, Some(net));
      CopyTally(env, info, list, part, true, Some(net));
    }
  }

  lemma CopyConsistent(env: Env, s: State, list: seq<int>)
    requires Consistent(env, s) && Enumerates(list, s.info)
    ensures Consistent(env, Copy(env, s, list))
  {
    hide AddrOk, RandomOk, TriedOk, NewOk, RefsOk, CountsOk, TimesOk, Enumerates, MidInfo, Renamed, MidCounts, UpTo;
    IdsAreListed(env, s, list);
    CopyIds(s.info, list, s.newTab);
    CopyAddr(s.info, s.addr, list, s.newTab);
    CopyRandom(s.info, list, s.newTab);
    CopyTried(env, s.key, s.info, s.triedTab, list, s.newTab);
    CopyNew(env, s.key, s.info, s.newTab, list);
    CopyRefs(s.info, s.newTab, list);
    CopyTimes(s.info, list, s.newTab);
    CopyCounts(env, s.info, s.nNew, s.nTried, s.counts, list, s.newTab);
  }

  lemma CopyIds(info: InfoMap, list: seq<int>, part: map<Slot, int>)
    requires Enumerates(list, info)
    ensures forall k | k in MidInfo(info, list, |list|, part) :: 0 <= k < |list|
  {
  }

  // ----- the round trip -----

  lemma {:induction false} RowBound(tab: map<Slot, int>, b: int, p: nat)
    ensures |RowSlots(tab, b, p)| <= p
  {
    if p > 0 { RowBound(tab, b, p - 1); }
  }

  lemma {:induction false} AllBound(tab: map<Slot, int>, n: nat)
    ensures |AllSlots(tab, n)| <= n * BUCKET_SIZE
  {
    if n > 0 {
      AllBound(tab, n - 1);
      RowBound(tab, n - 1, BUCKET_SIZE);
    }
  }

  /** Entries that all occupy slots are no more than the slots there are. */
  lemma NoMoreThanSlots(tab: map<Slot, int>, ids: set<int>, n: nat)
    requires forall id | id in ids :: exists slot :: slot in tab && tab[slot] == id
                                                   && 0 <= slot.bucket < n && 0 <= slot.pos < BUCKET_SIZE
    ensures |ids| <= n * BUCKET_SIZE
  {
    var all := AllSlots(tab, n);
    AllSlotsFacts(tab, n);
    AllBound(tab, n);
    var held := seq(|all|, k requires 0 <= k < |all| => if all[k] in tab then tab[all[k]] else 0);
    forall id | id in ids ensures id in held {
      var slot :| slot in tab && tab[slot] == id && 0 <= slot.bucket < n && 0 <= slot.pos < BUCKET_SIZE;
      var k :| 0 <= k < |all| && all[k] == slot;
      assert held[k] == id;
    }
    SubsetInts(ids, Members(held));
    SubsetCardinality(ids, Members(held));
    MembersSize(held);
  }

  lemma SubsetInts(a: set<int>, b: set<int>)
    requires forall x | x in a :: x in b
    ensures a <= b
  {
    if a - b != {} {
      var x := Witness(a - b);
      assert false;
    }
    assert a == a * b + (a - b);
  }

  lemma CountersInRange(env: Env, s: State)
    requires Consistent(env, s)
    ensures 0 <= s.nNew <= NEW_BUCKET_COUNT * BUCKET_SIZE && 0 <= s.nTried <= TRIED_BUCKET_COUNT * BUCKET_SIZE
  {
    hide AddrOk, RandomOk, TimesOk, TriedSlot, SlotInBucket;
    var news, trieds := Tally(env, s.info, {}, false, None), Tally(env, s.info, {}, true, None);
    forall id | id in news
      ensures exists slot :: slot in s.newTab && s.newTab[slot] == id
                             && 0 <= slot.bucket < NEW_BUCKET_COUNT && 0 <= slot.pos < BUCKET_SIZE
    {
      var slot := Witness(SlotsOf(s.newTab, id));
      assert slot in s.newTab && s.newTab[slot] == id;
    }
    NoMoreThanSlots(s.newTab, news, NEW_BUCKET_COUNT);
    TriedSlotRange(env, s.key, s.info);
    NoMoreThanSlots(s.triedTab, trieds, TRIED_BUCKET_COUNT);
  }

  lemma {:induction false} NothingToPrune(env: Env, s: State, order: seq<int>)
    requires Consistent(env, s)
    ensures Prune(env, s, order) == s
    decreases |order|
  {
    hide Rest, RandomOk, Delete;
    if order != [] {
      var n := |order| - 1;
      NothingToPrune(env, s, order[..n]);
      if order[n] in s.info { SettledHasSlot(env, s, order[n]); }
    }
  }

  /** Reading everything back, before the final check. */
  lemma LoadIsCopy(env: Env, s: State, order: seq<int>)
    requires Consistent(env, s) && AllValid(env, s) && Enumerates(order, s.info)
    ensures Load(env, Serialize(env, s, order)) ==
            Copy(env, s, Listed(s.info, order, false) + Listed(s.info, order, true))
  {
    hide Inv, AllValid, Enumerates, Listed, LoadNew, LoadTried, Lost, RestoreAll, Places, Mid, Records, Row, AllSlots,
         SlotPlaces;
    var news, trieds := Listed(s.info, order, false), Listed(s.info, order, true);
    var list := news + trieds;
    var f := Serialize(env, s, order);
    SplitFacts(env, s, order);
    ListEnumerates(s.info, order);
    RecordsSize(s.info, news);
    RecordsSize(s.info, trieds);
    LoadNewIs(env, s, news, trieds, |news|);
    assert f.newRecords[..|news|] == f.newRecords;
    MidIdCount(env, s, list, |news|);
    LoadTriedIs(env, s, news, trieds, |trieds|);
    assert f.triedRecords[..|trieds|] == f.triedRecords;
    MidIdCount(env, s, list, |list|);
    PlacesAre(s.newTab, news, f.buckets);
    AllSlotsFacts(s.newTab, NEW_BUCKET_COUNT);
    SamePlaces(s.newTab, news, trieds, AllSlots(s.newTab, NEW_BUCKET_COUNT), s.info);
    RestoreIs(env, s, list, AllSlots(s.newTab, NEW_BUCKET_COUNT), |list|);
    EverySlotListed(env, s);
  }

  lemma MidIdCount(env: Env, s: State, list: seq<int>, n: nat)
    requires n <= |list|
    ensures Mid(env, s, list, n, map[], 0).(idCount := n) == Mid(env, s, list, n, map[], n)
    ensures Mid(env, s, list, n, map[], n).nTried == s.nTried
  {
  }

  lemma SplitFacts(env: Env, s: State, order: seq<int>)
    requires Consistent(env, s) && Enumerates(order, s.info)
    ensures var news, trieds := Listed(s.info, order, false), Listed(s.info, order, true);
            && |news| == s.nNew && |trieds| == s.nTried
            && (forall k | 0 <= k < |news| :: news[k] in s.info && !s.info[news[k]].inTried)
            && (forall k | 0 <= k < |trieds| :: trieds[k] in s.info && s.info[trieds[k]].inTried)
            && (forall slot | slot in s.newTab :: s.newTab[slot] in news)
  {
    hide AddrOk, RandomOk, RefsOk, TimesOk, Enumerates, Listed, Tally, TriedOk, SlotInBucket;
    ListedSize(env, s.info, order, false);
    ListedSize(env, s.info, order, true);
    var news, trieds := Listed(s.info, order, false), Listed(s.info, order, true);
    forall k | 0 <= k < |news| ensures news[k] in s.info && !s.info[news[k]].inTried {
      ListedMember(s.info, order, false, news[k]);
    }
    forall k | 0 <= k < |trieds| ensures trieds[k] in s.info && s.info[trieds[k]].inTried {
      ListedMember(s.info, order, true, trieds[k]);
    }
    forall slot | slot in s.newTab ensures s.newTab[slot] in news {
      Lists(order, s.info, s.newTab[slot]);
      ListedMember(s.info, order, false, s.newTab[slot]);
    }
  }

  lemma ListedMember(info: InfoMap, order: seq<int>, inTried: bool, id: int)
    ensures id in Listed(info, order, inTried) <==> id in order && id in info && info[id].inTried == inTried
  {
    ListedMembers(info, order, inTried);
  }

  lemma SamePlaces(tab: map<Slot, int>, news: seq<int>, trieds: seq<int>, slots: seq<Slot>, info: InfoMap)
    requires Enumerates(news + trieds, info)
    requires (forall slot | slot in tab :: tab[slot] in news) && forall k | 0 <= k < |slots| :: slots[k] in tab
    ensures SlotPlaces(tab, news, slots) == SlotPlaces(tab, news + trieds, slots)
  {
    hide IndexOf, Distinct;
    forall k | 0 <= k < |slots| { IndexInPrefix(news, trieds, tab[slots[k]]); }
  }

  lemma EverySlotListed(env: Env, s: State)
    requires Consistent(env, s)
    ensures Filled(s.newTab, AllSlots(s.newTab, NEW_BUCKET_COUNT)) == s.newTab
  {
    hide AddrOk, RandomOk, RefsOk, TimesOk, CountsOk, TriedOk, SlotInBucket, AllSlots;
    AllSlotsFacts(s.newTab, NEW_BUCKET_COUNT);
  }

  /** Two managers that differ only in the names of ids and in what is kept in memory only. */
  ghost predicate SameManager(s: State, t: State, list: seq<int>) {
    && t.key == s.key && t.nNew == s.nNew && t.nTried == s.nTried
    && Enumerates(list, s.info)
    && (forall k :: k in t.info <==> 0 <= k < |list|)
    && (forall k | 0 <= k < |list| :: list[k] in s.info && k in t.info && SameEntry(t.info[k], s.info[list[k]]))
    && SameSlots(s.newTab, t.newTab, list)
    && SameSlots(s.triedTab, t.triedTab, list)
    && (forall net :: CountOf(t.counts, net) == CountOf(s.counts, net))
  }

  /** i is j as it comes back: all but the statistics kept in memory only, with the time of the address in 32 bits. */
  predicate SameEntry(i: AddrInfo, j: AddrInfo) {
    && i.addr == Stored(j.addr) && (0 <= j.addr.time < TIME_WORD ==> i.addr == j.addr)
    && i.source == j.source && i.lastSuccess == j.lastSuccess && i.attempts == j.attempts
    && i.refCount == j.refCount && i.inTried == j.inTried
  }

  ghost predicate SameSlots(tab: map<Slot, int>, tab': map<Slot, int>, list: seq<int>) {
    tab'.Keys == tab.Keys && forall slot | slot in tab :: 0 <= tab'[slot] < |list| && list[tab'[slot]] == tab[slot]
  }

  lemma CopyIsSame(env: Env, s: State, list: seq<int>)
    requires Consistent(env, s) && Enumerates(list, s.info)
    ensures SameManager(s, Copy(env, s, list), list)
  {
    hide Inv, MidInfo, Renamed, MidCounts, SlotsOf, Distinct, SameEntry, UpTo;
    IdsAreListed(env, s, list);
    CopyEntries(env, s, list);
    RenamedFacts(s.newTab, list);
    RenamedFacts(s.triedTab, list);
    CopySame(env, s, list);
  }

  lemma CopyEntries(env: Env, s: State, list: seq<int>)
    requires Consistent(env, s) && Enumerates(list, s.info)
    ensures var copy := MidInfo(s.info, list, |list|, s.newTab);
            && (forall k :: k in copy <==> 0 <= k < |list|)
            && (forall k | 0 <= k < |list| :: list[k] in s.info && k in copy && SameEntry(copy[k], s.info[list[k]]))
  {
    hide Inv, MidInfo, SlotsOf, Distinct;
    CopyInfo(s.info, list, s.newTab);
    CopySame(env, s, list);
  }

  lemma CopySame(env: Env, s: State, list: seq<int>)
    requires Consistent(env, s) && Enumerates(list, s.info)
    ensures forall net :: CountOf(MidCounts(env, s.info, list, |list|), net) == CountOf(s.counts, net)
    ensures forall id | id in s.info :: s.info[id].refCount == |SlotsOf(s.newTab, id)|
  {
    hide AddrOk, RandomOk, TriedOk, NewOk, TimesOk, Enumerates, MidCounts, SlotsOf, CountOf;
    CopyCounts(env, s.info, s.nNew, s.nTried, s.counts, list, s.newTab);
  }

  /**
    Loading what was saved, with the same grouping: the load succeeds, restores
    both tables slot by slot, every entry and every counter, and passes the
    consistency check. `order` and `order'` are the iteration orders of mapInfo
    while saving and at the end of loading.
   */
  lemma RoundTrip(env: Env, s: State, order: seq<int>, order': seq<int>)
    requires Consistent(env, s) && AllValid(env, s) && Enumerates(order, s.info)
    ensures var f := Serialize(env, s, order);
            var list := Listed(s.info, order, false) + Listed(s.info, order, true);
            var (status, t) := Unserialize(env, f, order');
            && Framed(f)
            && status == Loaded
            && t == Copy(env, s, list)
            && Consistent(env, t) && CheckOk(env, t)
            && SameManager(s, t, list)
  {
    hide Inv, AllValid, Enumerates, Listed, Load, Copy, Records, Row, CheckOk, Prune, SameManager;
    var list := Listed(s.info, order, false) + Listed(s.info, order, true);
    SplitFacts(env, s, order);
    RecordsSize(s.info, Listed(s.info, order, false));
    RecordsSize(s.info, Listed(s.info, order, true));
    CountersInRange(env, s);
    ListEnumerates(s.info, order);
    LoadIsCopy(env, s, order);
    CopyConsistent(env, s, list);
    NothingToPrune(env, Copy(env, s, list), order');
    ConsistentPasses(env, Copy(env, s, list));
    CopyIsSame(env, s, list);
  }
}
