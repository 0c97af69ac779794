/**
  CheckAddrman, the source's own consistency check, as the loops it runs. It
  answers 0 exactly when the condition CheckOk holds, and CheckOk follows from
  the invariant that every operation keeps.
 */
module AddrManCheck {
  import opened Prelude
  import opened AddrTypes
  import opened AddrManInvariant
  import opened AddrManOps
  import opened AddrMan
  import opened AddrManQueries
  import Spec = AddrManSpec

  // ----- what the check accepts -----

  predicate EntryOk(id: int, i: AddrInfo, addr: map<Service, int>, random: seq<int>) {
    && (i.inTried ==> i.lastSuccess != 0 && i.refCount == 0)
    && (!i.inTried ==> 1 <= i.refCount <= NEW_BUCKETS_PER_ADDRESS)
    && i.addr.service in addr && addr[i.addr.service] == id
    && 0 <= i.randomPos < |random| && random[i.randomPos] == id
    && i.lastTry >= 0 && i.lastSuccess >= 0
  }

  ghost predicate EntriesOk(info: InfoMap, addr: map<Service, int>, random: seq<int>) {
    forall id | id in info :: EntryOk(id, info[id], addr, random)
  }

  /** Each new slot holds a new entry at its own position, and the slots of an entry are as many as it counts. */
  ghost predicate NewTableOk(env: Env, key: Key, info: InfoMap, tab: map<Slot, int>) {
    && (forall slot | slot in tab :: NewSlotOk(env, key, info, tab, slot))
    && (forall id | id in info && !info[id].inTried :: info[id].refCount == |SlotsOf(tab, id)|)
  }

  predicate NewSlotOk(env: Env, key: Key, info: InfoMap, tab: map<Slot, int>, slot: Slot)
    requires slot in tab
  {
    && tab[slot] in info && !info[tab[slot]].inTried
    && slot.pos == BucketPosition(env, key, true, slot.bucket, info[tab[slot]].addr.service)
  }

  /** The networks with at least one entry. */
  function LocalNets(env: Env, info: InfoMap): set<Network> { set id | id in info :: Spec.NetOf(env, info[id]) }

  ghost predicate NetCountsOk(env: Env, info: InfoMap, counts: map<Network, Spec.Count>) {
    && |counts| >= |LocalNets(env, info)|
    && (forall net | net in counts ::
          counts[net] == Spec.Count(|Tally(env, info, {}, false, Some(net))|, |Tally(env, info, {}, true, Some(net))|))
  }

  ghost predicate CheckOk(env: Env, s: Spec.State) {
    && |s.random| == s.nTried + s.nNew
    && EntriesOk(s.info, s.addr, s.random)
    && |Tally(env, s.info, {}, true, None)| == s.nTried
    && |Tally(env, s.info, {}, false, None)| == s.nNew
    && TriedOk(env, s.key, s.info, s.triedTab)
    && NewTableOk(env, s.key, s.info, s.newTab)
    && s.key != 0
    && NetCountsOk(env, s.info, s.counts)
  }

  // ----- the invariant implies the check -----

  lemma TablesPartition(env: Env, info: InfoMap)
    ensures |info| == |Tally(env, info, {}, true, None)| + |Tally(env, info, {}, false, None)|
  {
    hide Spec.NetOf;
    var t, n := Tally(env, info, {}, true, None), Tally(env, info, {}, false, None);
    assert info.Keys == t + n;
    assert t !! n;
  }

  lemma LocalNetsCounted(env: Env, info: InfoMap, nNew: int, nTried: int, counts: map<Network, Spec.Count>)
    requires CountsOk(env, info, nNew, nTried, counts, {})
    ensures NetCountsOk(env, info, counts)
  {
    hide Spec.NetOf;
    forall id | id in info ensures Spec.NetOf(env, info[id]) in counts {
      assert id in Tally(env, info, {}, info[id].inTried, Some(Spec.NetOf(env, info[id])));
    }
    SubsetCardinality(LocalNets(env, info), counts.Keys);
  }

  lemma ConsistentTables(env: Env, s: Spec.State)
    requires Consistent(env, s)
    ensures EntriesOk(s.info, s.addr, s.random) && NewTableOk(env, s.key, s.info, s.newTab)
  {
    hide CountsOk, TriedSlot;
    forall id | id in s.info && s.info[id].inTried ensures s.info[id].refCount == 0 {
      assert SlotsOf(s.newTab, id) == {};
    }
  }

  /** Every consistent manager passes the check. */
  lemma ConsistentPasses(env: Env, s: Spec.State)
    requires Consistent(env, s)
    ensures CheckOk(env, s)
  {
    hide AddrOk, RandomOk, NewOk, RefsOk, EntriesOk, NewTableOk, TriedOk, NetCountsOk, Tally, TimesOk, FloatingOk;
    ConsistentTables(env, s);
    LocalNetsCounted(env, s.info, s.nNew, s.nTried, s.counts);
    TablesPartition(env, s.info);
    OrderSize(env, s);
  }

  // ----- first loop: the records -----

  /** The records seen so far. */
  ghost function Part(info: InfoMap, seen: set<int>): InfoMap { map id | id in info && id in seen :: info[id] }

  /** What the first loop collects: tried ids, reference counts of new ids, and local counters. */
  ghost predicate Collected(env: Env, part: InfoMap, setTried: set<int>, mapNew: map<int, int>,
                            local: map<Network, Spec.Count>) {
    && setTried == Tally(env, part, {}, true, None)
    && mapNew == (map id | id in part && !part[id].inTried :: part[id].refCount)
    && local.Keys == LocalNets(env, part)
    && (forall net :: Spec.CountOf(local, net) == Spec.Count(|Tally(env, part, {}, false, Some(net))|,
                                                             |Tally(env, part, {}, true, Some(net))|))
  }

  lemma CollectedNone(env: Env)
    ensures Collected(env, map[], {}, map[], map[])
  {
    forall t, n ensures Tally(env, map[], {}, t, n) == {} {}
    assert LocalNets(env, map[]) == {};
  }

  lemma CollectNets(
    env: Env, part: InfoMap, id: int, i: AddrInfo, local: map<Network, Spec.Count>, dNew: int, dTried: int)
    requires id !in part && local.Keys == LocalNets(env, part)
    ensures Spec.AddCount(local, Spec.NetOf(env, i), dNew, dTried).Keys == LocalNets(env, part[id := i])
  {
    hide Spec.NetOf;
    var part' := part[id := i];
    assert part'[id] == i;
    forall j | j in part ensures Spec.NetOf(env, part[j]) in LocalNets(env, part') {
      assert part'[j] == part[j];
    }
  }

  lemma CollectOne(env: Env, part: InfoMap, id: int, i: AddrInfo, setTried: set<int>, mapNew: map<int, int>,
                   local: map<Network, Spec.Count>)
    requires Collected(env, part, setTried, mapNew, local) && id !in part
    ensures i.inTried ==>
              Collected(env, part[id := i], setTried + {id}, mapNew, Spec.AddCount(local, Spec.NetOf(env, i), 0, 1))
    ensures !i.inTried ==>
              Collected(env, part[id := i], setTried, mapNew[id := i.refCount],
                        Spec.AddCount(local, Spec.NetOf(env, i), 1, 0))
  {
    hide LocalNets, Tally, Spec.NetOf, Spec.AddCount;
    CollectNets(env, part, id, i, local, 0, 1);
    CollectNets(env, part, id, i, local, 1, 0);
    CollectCounts(env, part, id, i, local);
    CollectTried(env, part, id, i);
  }

  lemma CollectTried(env: Env, part: InfoMap, id: int, i: AddrInfo)
    requires id !in part
    ensures Tally(env, part[id := i], {}, true, None) ==
            Tally(env, part, {}, true, None) + (if i.inTried then {id} else {})
  {
  }

  lemma CollectCounts(env: Env, part: InfoMap, id: int, i: AddrInfo, local: map<Network, Spec.Count>)
    requires id !in part
    requires forall net :: Spec.CountOf(local, net) == Spec.Count(|Tally(env, part, {}, false, Some(net))|,
                                                                  |Tally(env, part, {}, true, Some(net))|)
    ensures var local' := Spec.AddCount(local, Spec.NetOf(env, i), if i.inTried then 0 else 1,
                                        if i.inTried then 1 else 0);
            forall net :: Spec.CountOf(local', net) == Spec.Count(|Tally(env, part[id := i], {}, false, Some(net))|,
                                                                  |Tally(env, part[id := i], {}, true, Some(net))|)
  {
    hide Tally;
    CountsMove(env, part, part[id := i], {}, {}, id, Spec.NetOf(env, i),
               |Tally(env, part, {}, false, None)|, |Tally(env, part, {}, true, None)|, local);
  }

  method CheckRecords(m: AddrManImpl)
    returns (code: int, setTried: set<int>, mapNew: map<int, int>, local: map<Network, Spec.Count>)
    requires m.Shape()
    ensures code == 0 <==> EntriesOk(m.mapInfo, m.mapAddr, m.vRandom)
    ensures code == 0 ==> Collected(m.env, m.mapInfo, setTried, mapNew, local)
  {
    hide Collected, Spec.AddCount, Spec.NetOf;
    var env, info := m.env, m.mapInfo;
    setTried, mapNew, local := {}, map[], map[];
    var todo := info.Keys;
    CollectedNone(env);
    assert Part(info, info.Keys - todo) == map[];
    while todo != {}
      invariant todo <= info.Keys
      invariant forall id | id in info && id !in todo :: EntryOk(id, info[id], m.mapAddr, m.vRandom)
      invariant Collected(env, Part(info, info.Keys - todo), setTried, mapNew, local)
      decreases |todo|
    {
      var n := Pick(todo);
      var i := info[n];
      CollectOne(env, Part(info, info.Keys - todo), n, i, setTried, mapNew, local);
      assert Part(info, info.Keys - (todo - {n})) == Part(info, info.Keys - todo)[n := i];
      if i.inTried {
        if i.lastSuccess == 0 { return -1, setTried, mapNew, local; }
        if i.refCount != 0 { return -2, setTried, mapNew, local; }
        setTried := setTried + {n};
        local := Spec.AddCount(local, Spec.NetOf(env, i), 0, 1);
      } else {
        if i.refCount < 0 || i.refCount > NEW_BUCKETS_PER_ADDRESS { return -3, setTried, mapNew, local; }
        if i.refCount == 0 { return -4, setTried, mapNew, local; }
        mapNew := mapNew[n := i.refCount];
        local := Spec.AddCount(local, Spec.NetOf(env, i), 1, 0);
      }
      if !(i.addr.service in m.mapAddr && m.mapAddr[i.addr.service] == n) { return -5, setTried, mapNew, local; }
      if i.randomPos < 0 || i.randomPos >= |m.vRandom| || m.vRandom[i.randomPos] != n {
        return -14, setTried, mapNew, local;
      }
      if i.lastTry < 0 { return -6, setTried, mapNew, local; }
      if i.lastSuccess < 0 { return -8, setTried, mapNew, local; }
      todo := todo - {n};
    }
    assert Part(info, info.Keys - todo) == info;
    code := 0;
  }

  // ----- second loop: the tried table -----

  /** The slots visited before (b, p) in the order of the nested loops. */
  ghost predicate Before(slot: Slot, b: int, p: int) {
    slot.bucket < b || (slot.bucket == b && slot.pos < p)
  }

  predicate TriedSlotOk(env: Env, key: Key, info: InfoMap, tab: map<Slot, int>, slot: Slot)
    requires slot in tab
  {
    tab[slot] in info && info[tab[slot]].inTried && slot == TriedSlot(env, key, info[tab[slot]].addr.service)
  }

  /** State of the second loop: visited slots are fine, and exactly their entries are struck off. */
  ghost predicate TriedSwept(env: Env, key: Key, info: InfoMap, tab: map<Slot, int>, left: set<int>, b: int, p: int) {
    && (forall slot | slot in tab && Before(slot, b, p) :: TriedSlotOk(env, key, info, tab, slot))
    && (forall id | id in left :: id in info && info[id].inTried)
    && (forall id | id in info && info[id].inTried ::
          id in left <==> !(var slot := TriedSlot(env, key, info[id].addr.service);
                            slot in tab && tab[slot] == id && Before(slot, b, p)))
  }

  lemma TriedSweepStart(env: Env, key: Key, info: InfoMap, tab: map<Slot, int>)
    requires forall slot | slot in tab :: InTriedTable(slot)
    ensures TriedSwept(env, key, info, tab, Tally(env, info, {}, true, None), 0, 0)
  {
    hide TriedSlot;
    TriedSlotRange(env, key, info);
  }

  lemma TriedSlotRange(env: Env, key: Key, info: InfoMap)
    ensures forall id | id in info :: InTriedTable(TriedSlot(env, key, info[id].addr.service))
  {
  }

  lemma TriedSweepSkip(env: Env, key: Key, info: InfoMap, tab: map<Slot, int>, left: set<int>, b: int, p: int)
    requires TriedSwept(env, key, info, tab, left, b, p) && Slot(b, p) !in tab
    ensures TriedSwept(env, key, info, tab, left, b, p + 1)
  {
    hide TriedSlot;
  }

  /** An occupied slot: a flaw found here refutes the table; otherwise its entry is struck off. */
  lemma TriedSweepHit(env: Env, key: Key, info: InfoMap, tab: map<Slot, int>, left: set<int>, b: int, p: int)
    requires TriedSwept(env, key, info, tab, left, b, p) && Slot(b, p) in tab
    ensures var id := tab[Slot(b, p)];
            if id in left && TriedSlotOk(env, key, info, tab, Slot(b, p))
            then TriedSwept(env, key, info, tab, left - {id}, b, p + 1)
            else !TriedOk(env, key, info, tab)
  {
    hide TriedSlot;
    var id := tab[Slot(b, p)];
    if TriedOk(env, key, info, tab) {
      assert TriedSlotOk(env, key, info, tab, Slot(b, p));
    }
  }

  lemma TriedSweepRow(env: Env, key: Key, info: InfoMap, tab: map<Slot, int>, left: set<int>, b: int)
    requires TriedSwept(env, key, info, tab, left, b, BUCKET_SIZE)
    requires forall slot | slot in tab :: InTriedTable(slot)
    ensures TriedSwept(env, key, info, tab, left, b + 1, 0)
  {
    hide TriedSlot;
  }

  lemma TriedSweepEnd(env: Env, key: Key, info: InfoMap, tab: map<Slot, int>, left: set<int>)
    requires TriedSwept(env, key, info, tab, left, TRIED_BUCKET_COUNT, 0)
    requires forall slot | slot in tab :: InTriedTable(slot)
    ensures left == {} <==> TriedOk(env, key, info, tab)
  {
    hide TriedSlot;
    if TriedOk(env, key, info, tab) && left != {} {
      var id := Witness(left);
      assert false;
    }
  }

  lemma TableRange(a: array2<int>, slot: Slot)
    requires slot in Table(a)
    ensures 0 <= slot.bucket < a.Length0 && 0 <= slot.pos < a.Length1
  {
  }

  method CheckTriedTable(m: AddrManImpl, setTried: set<int>) returns (code: int, left: set<int>)
    requires m.Shape() && setTried == Tally(m.env, m.mapInfo, {}, true, None)
    ensures code != 0 ==> !TriedOk(m.env, m.nKey, m.mapInfo, Table(m.vvTried))
    ensures code == 0 ==> (left == {} <==> TriedOk(m.env, m.nKey, m.mapInfo, Table(m.vvTried)))
  {
    hide Table, TriedSwept, TriedOk, TriedBucket, BucketPosition, Tally;
    var env, key, info := m.env, m.nKey, m.mapInfo;
    ghost var tab := Table(m.vvTried);
    forall slot | slot in tab ensures InTriedTable(slot) { TableRange(m.vvTried, slot); }
    left := setTried;
    TriedSweepStart(env, key, info, tab);
    var n := 0;
    while n < TRIED_BUCKET_COUNT
      invariant 0 <= n <= TRIED_BUCKET_COUNT
      invariant TriedSwept(env, key, info, tab, left, n, 0)
    {
      var i := 0;
      while i < BUCKET_SIZE
        invariant 0 <= i <= BUCKET_SIZE
        invariant TriedSwept(env, key, info, tab, left, n, i)
      {
        TableAt(m.vvTried, Slot(n, i));
        var id := m.vvTried[n, i];
        if id != EMPTY {
          TriedSweepHit(env, key, info, tab, left, n, i);
          if id !in left { return -11, left; }
          if id !in info || TriedBucket(env, key, info[id].addr.service) != n { return -17, left; }
          if BucketPosition(env, key, false, n, info[id].addr.service) != i { return -18, left; }
          TriedSweptMember(env, key, info, tab, left, n, i, id);
          left := left - {id};
        } else {
          TriedSweepSkip(env, key, info, tab, left, n, i);
        }
        i := i + 1;
      }
      TriedSweepRow(env, key, info, tab, left, n);
      n := n + 1;
    }
    TriedSweepEnd(env, key, info, tab, left);
    code := 0;
  }

  lemma TriedSweptMember(
    env: Env, key: Key, info: InfoMap, tab: map<Slot, int>, left: set<int>, b: int, p: int, id: int)
    requires TriedSwept(env, key, info, tab, left, b, p) && id in left
    ensures id in info && info[id].inTried
  {
  }

  // ----- third loop: the new table -----

  ghost function Seen(tab: map<Slot, int>, b: int, p: int): map<Slot, int> {
    map slot | slot in tab && Before(slot, b, p) :: tab[slot]
  }

  /** State of the third loop: `left` holds what each new entry still expects to find. */
  ghost predicate NewSwept(
    env: Env, key: Key, info: InfoMap, tab: map<Slot, int>, left: map<int, int>, b: int, p: int)
  {
    && (forall slot | slot in tab && Before(slot, b, p) :: NewSlotOk(env, key, info, tab, slot))
    && Owed(info, Seen(tab, b, p), left)
  }

  ghost predicate Owed(info: InfoMap, seen: map<Slot, int>, left: map<int, int>) {
    && (forall id | id in left :: id in info && !info[id].inTried)
    && (forall id | id in info && !info[id].inTried ::
          && |SlotsOf(seen, id)| <= info[id].refCount
          && (id in left <==> |SlotsOf(seen, id)| < info[id].refCount)
          && (id in left ==> left[id] == info[id].refCount - |SlotsOf(seen, id)|))
  }

  lemma NewSweepStart(env: Env, key: Key, info: InfoMap, tab: map<Slot, int>, addr: map<Service, int>, random: seq<int>)
    requires EntriesOk(info, addr, random) && forall slot | slot in tab :: InNewTable(slot)
    ensures NewSwept(env, key, info, tab, map id | id in info && !info[id].inTried :: info[id].refCount, 0, 0)
  {
    assert Seen(tab, 0, 0) == map[];
    forall id: int ensures SlotsOf(map[], id) == {} {}
  }

  lemma NewSweepSkip(env: Env, key: Key, info: InfoMap, tab: map<Slot, int>, left: map<int, int>, b: int, p: int)
    requires NewSwept(env, key, info, tab, left, b, p) && Slot(b, p) !in tab
    ensures NewSwept(env, key, info, tab, left, b, p + 1)
  {
    hide Owed, NewSlotOk;
    assert Seen(tab, b, p + 1) == Seen(tab, b, p);
  }

  lemma NewSweepRow(env: Env, key: Key, info: InfoMap, tab: map<Slot, int>, left: map<int, int>, b: int)
    requires NewSwept(env, key, info, tab, left, b, BUCKET_SIZE)
    requires forall slot | slot in tab :: InNewTable(slot)
    ensures NewSwept(env, key, info, tab, left, b + 1, 0)
  {
    hide Owed, NewSlotOk;
    assert Seen(tab, b + 1, 0) == Seen(tab, b, BUCKET_SIZE);
  }

  function Strike(left: map<int, int>, id: int): map<int, int>
    requires id in left
  {
    if left[id] == 1 then left - {id} else left[id := left[id] - 1]
  }

  lemma OwedStrike(info: InfoMap, seen: map<Slot, int>, left: map<int, int>, slot: Slot, id: int)
    requires Owed(info, seen, left) && slot !in seen && id in left
    ensures Owed(info, seen[slot := id], Strike(left, id))
  {
    hide SlotsOf;
    forall j: int { SlotsPut(seen, slot, id, j); }
  }

  lemma NewSweepHit(env: Env, key: Key, info: InfoMap, tab: map<Slot, int>, left: map<int, int>, b: int, p: int)
    requires NewSwept(env, key, info, tab, left, b, p) && Slot(b, p) in tab
    ensures var id := tab[Slot(b, p)];
            if id in left && NewSlotOk(env, key, info, tab, Slot(b, p))
            then NewSwept(env, key, info, tab, Strike(left, id), b, p + 1)
            else !NewTableOk(env, key, info, tab)
  {
    hide NewSlotOk, Owed;
    var slot := Slot(b, p);
    var id := tab[slot];
    assert Seen(tab, b, p + 1) == Seen(tab, b, p)[slot := id];
    if id in left && NewSlotOk(env, key, info, tab, slot) {
      OwedStrike(info, Seen(tab, b, p), left, slot, id);
    } else if NewSlotOk(env, key, info, tab, slot) {
      TooMany(env, key, info, tab, left, b, p);
    }
  }

  lemma TooMany(env: Env, key: Key, info: InfoMap, tab: map<Slot, int>, left: map<int, int>, b: int, p: int)
    requires Owed(info, Seen(tab, b, p), left) && Slot(b, p) in tab
    requires NewSlotOk(env, key, info, tab, Slot(b, p)) && tab[Slot(b, p)] !in left
    ensures !NewTableOk(env, key, info, tab)
  {
    var id := tab[Slot(b, p)];
    var before, all := SlotsOf(Seen(tab, b, p), id), SlotsOf(tab, id);
    assert before + {Slot(b, p)} <= all && Slot(b, p) !in before;
    SubsetCardinality(before + {Slot(b, p)}, all);
  }

  lemma NewSweepEnd(env: Env, key: Key, info: InfoMap, tab: map<Slot, int>, left: map<int, int>)
    requires NewSwept(env, key, info, tab, left, NEW_BUCKET_COUNT, 0)
    requires forall slot | slot in tab :: InNewTable(slot)
    ensures left == map[] <==> NewTableOk(env, key, info, tab)
  {
    hide NewSlotOk;
    assert Seen(tab, NEW_BUCKET_COUNT, 0) == tab;
    if NewTableOk(env, key, info, tab) {
      if left.Keys != {} {
        var id := Witness(left.Keys);
        assert false;
      }
      assert left == map[];
    }
  }

  method CheckNewTable(m: AddrManImpl, mapNew: map<int, int>) returns (code: int, left: map<int, int>)
    requires m.Shape() && EntriesOk(m.mapInfo, m.mapAddr, m.vRandom)
    requires mapNew == map id | id in m.mapInfo && !m.mapInfo[id].inTried :: m.mapInfo[id].refCount
    ensures code != 0 ==> !NewTableOk(m.env, m.nKey, m.mapInfo, Table(m.vvNew))
    ensures code == 0 ==> (left == map[] <==> NewTableOk(m.env, m.nKey, m.mapInfo, Table(m.vvNew)))
  {
    hide Table, NewSwept, NewTableOk, BucketPosition, EntryOk;
    var env, key, info := m.env, m.nKey, m.mapInfo;
    ghost var tab := Table(m.vvNew);
    forall slot | slot in tab ensures InNewTable(slot) { TableRange(m.vvNew, slot); }
    left := mapNew;
    NewSweepStart(env, key, info, tab, m.mapAddr, m.vRandom);
    var n := 0;
    while n < NEW_BUCKET_COUNT
      invariant 0 <= n <= NEW_BUCKET_COUNT
      invariant NewSwept(env, key, info, tab, left, n, 0)
    {
      var i := 0;
      while i < BUCKET_SIZE
        invariant 0 <= i <= BUCKET_SIZE
        invariant NewSwept(env, key, info, tab, left, n, i)
      {
        TableAt(m.vvNew, Slot(n, i));
        var id := m.vvNew[n, i];
        if id != EMPTY {
          NewSweepHit(env, key, info, tab, left, n, i);
          if id !in left { return -12, left; }
          if id !in info || BucketPosition(env, key, true, n, info[id].addr.service) != i { return -19, left; }
          NewSweptMember(env, key, info, tab, left, n, i, id);
          left := left[id := left[id] - 1];
          if left[id] == 0 { left := left - {id}; }
        } else {
          NewSweepSkip(env, key, info, tab, left, n, i);
        }
        i := i + 1;
      }
      NewSweepRow(env, key, info, tab, left, n);
      n := n + 1;
    }
    NewSweepEnd(env, key, info, tab, left);
    code := 0;
  }

  lemma NewSweptMember(
    env: Env, key: Key, info: InfoMap, tab: map<Slot, int>, left: map<int, int>, b: int, p: int, id: int)
    requires NewSwept(env, key, info, tab, left, b, p) && id in left
    ensures id in info && !info[id].inTried
    ensures left[id := left[id] - 1] - {id} == left - {id}
  {
  }

  // ----- the network counters, and the whole check -----

  method CheckCounts(m: AddrManImpl, local: map<Network, Spec.Count>) returns (code: int)
    requires local.Keys == LocalNets(m.env, m.mapInfo)
    requires forall net :: Spec.CountOf(local, net) ==
                           Spec.Count(|Tally(m.env, m.mapInfo, {}, false, Some(net))|,
                                      |Tally(m.env, m.mapInfo, {}, true, Some(net))|)
    ensures code == 0 <==> NetCountsOk(m.env, m.mapInfo, m.mNetworkCounts)
  {
    hide Tally, LocalNets;
    var counts := m.mNetworkCounts;
    if |counts| < |local| { return -20; }
    var todo := counts.Keys;
    while todo != {}
      invariant todo <= counts.Keys
      invariant forall net | net in counts && net !in todo :: counts[net] == Spec.CountOf(local, net)
      decreases |todo|
    {
      var net := Pick(todo);
      var count := Spec.CountOf(local, net);
      if count.asNew != counts[net].asNew || count.asTried != counts[net].asTried {
        return -21;
      }
      todo := todo - {net};
    }
    code := 0;
  }

  /** The check answers 0 exactly on the states that satisfy CheckOk. */
  method CheckAddrman(m: AddrManImpl) returns (code: int)
    requires m.Shape()
    ensures code == 0 <==> CheckOk(m.env, m.Abs())
  {
    hide Table, EntriesOk, TriedOk, NewTableOk, NetCountsOk, Tally, LocalNets;
    if |m.vRandom| != m.nTried + m.nNew { return -7; }
    var records, setTried, mapNew, local := CheckRecords(m);
    if records != 0 { return records; }
    NewIdsAre(m.env, m.mapInfo, mapNew);
    if |setTried| != m.nTried { return -9; }
    if |mapNew| != m.nNew { return -10; }
    var tried, triedLeft := CheckTriedTable(m, setTried);
    if tried != 0 { return tried; }
    var news, newLeft := CheckNewTable(m, mapNew);
    if news != 0 { return news; }
    if |triedLeft| != 0 { return -13; }
    if |newLeft| != 0 { return -15; }
    if m.nKey == 0 { return -16; }
    code := CheckCounts(m, local);
  }

  lemma NewIdsAre(env: Env, info: InfoMap, mapNew: map<int, int>)
    requires mapNew == map id | id in info && !info[id].inTried :: info[id].refCount
    ensures |mapNew| == |Tally(env, info, {}, false, None)|
  {
    assert mapNew.Keys == Tally(env, info, {}, false, None);
  }
}
