/**
  The cross-index invariant of the address manager, and the proof that every
  internal step keeps it. In the middle of an operation an entry may be
  "floating" (counted in neither table while it moves between them) or "loose"
  (just created, still without a slot); both sets are empty between operations.
 */
module AddrManInvariant {
  import opened Prelude
  import opened AddrTypes
  import opened AddrManSpec

  type InfoMap = map<int, AddrInfo>

  // ----- the invariant -----

  function SlotsOf(table: map<Slot, int>, id: int): set<Slot> {
    set slot | slot in table && table[slot] == id
  }

  /** The entries of one table, of all networks or of one. */
  function Tally(env: Env, info: InfoMap, floating: set<int>, inTried: bool, net: Option<Network>): set<int> {
    set id | id in info && id !in floating && info[id].inTried == inTried
             && (net.None? || NetOf(env, info[id]) == net.value)
  }

  ghost predicate IdsOk(key: Key, idCount: int, info: InfoMap) {
    key != 0 && idCount >= 0 && forall id | id in info :: 0 <= id < idCount
  }

  /** mapAddr is the inverse of the address stored in each record. */
  ghost predicate AddrOk(info: InfoMap, addr: map<Service, int>) {
    && (forall id | id in info :: info[id].addr.service in addr && addr[info[id].addr.service] == id)
    && (forall a | a in addr :: addr[a] in info && info[addr[a]].addr.service == a)
  }

  /** vRandom lists every live id once, and each record knows its place in it. */
  ghost predicate RandomOk(info: InfoMap, random: seq<int>) {
    && (forall id | id in info :: 0 <= info[id].randomPos < |random| && random[info[id].randomPos] == id)
    && (forall k | 0 <= k < |random| :: random[k] in info && info[random[k]].randomPos == k)
  }

  /** A tried entry sits in exactly its own tried slot. */
  ghost predicate TriedOk(env: Env, key: Key, info: InfoMap, tab: map<Slot, int>) {
    && (forall slot | slot in tab ::
          tab[slot] in info && info[tab[slot]].inTried && slot == TriedSlot(env, key, info[tab[slot]].addr.service))
    && (forall id | id in info && info[id].inTried ::
          var slot := TriedSlot(env, key, info[id].addr.service);
          slot in tab && tab[slot] == id)
  }

  /** Where the new table may point. */
  ghost predicate NewOk(env: Env, key: Key, info: InfoMap, tab: map<Slot, int>, floating: set<int>) {
    forall slot | slot in tab ::
      && InNewTable(slot)
      && tab[slot] in info && tab[slot] !in floating && !info[tab[slot]].inTried
      && slot == SlotInBucket(env, key, info[tab[slot]].addr.service, slot.bucket)
  }

  /** The reference count is the number of new slots holding the entry: 1..8 for a settled new entry. */
  ghost predicate RefsOk(info: InfoMap, tab: map<Slot, int>, floating: set<int>, loose: set<int>) {
    forall id | id in info ::
      && info[id].refCount == |SlotsOf(tab, id)| <= NEW_BUCKETS_PER_ADDRESS
      && (!info[id].inTried && id !in floating && id !in loose ==> info[id].refCount > 0)
  }

  ghost predicate FloatingOk(info: InfoMap, floating: set<int>) {
    forall id | id in floating :: id in info && !info[id].inTried
  }

  /** nNew, nTried and the per-network counters are exact. */
  ghost predicate CountsOk(env: Env, info: InfoMap, nNew: int, nTried: int, counts: map<Network, Count>,
                           floating: set<int>) {
    && nNew == |Tally(env, info, floating, false, None)|
    && nTried == |Tally(env, info, floating, true, None)|
    && (forall net :: CountOf(counts, net) == Count(|Tally(env, info, floating, false, Some(net))|,
                                                    |Tally(env, info, floating, true, Some(net))|))
  }

  ghost predicate TimeOk(i: AddrInfo) {
    i.lastTry >= 0 && i.lastSuccess >= 0 && (i.inTried ==> i.lastSuccess != 0)
  }

  ghost predicate TimesOk(info: InfoMap) { forall id | id in info :: TimeOk(info[id]) }

  /** Everything but the random order. */
  ghost predicate Rest(env: Env, s: State, floating: set<int>, loose: set<int>) {
    && IdsOk(s.key, s.idCount, s.info)
    && AddrOk(s.info, s.addr)
    && TriedOk(env, s.key, s.info, s.triedTab)
    && NewOk(env, s.key, s.info, s.newTab, floating)
    && RefsOk(s.info, s.newTab, floating, loose)
    && FloatingOk(s.info, floating)
    && CountsOk(env, s.info, s.nNew, s.nTried, s.counts, floating)
    && TimesOk(s.info)
  }

  ghost predicate Inv(env: Env, s: State, floating: set<int>, loose: set<int>) {
    RandomOk(s.info, s.random) && Rest(env, s, floating, loose)
  }

  /** The invariant that holds between public operations. */
  ghost predicate Consistent(env: Env, s: State) { Inv(env, s, {}, {}) }

  // ----- counting -----

  /** Outside id, the two maps agree on what is counted where. */
  ghost predicate SameElsewhere(info: InfoMap, info': InfoMap, floating: set<int>, floating': set<int>, id: int) {
    forall j | j != id ::
      && (j in info <==> j in info')
      && (j in floating <==> j in floating')
      && (j in info ==> info[j].inTried == info'[j].inTried && info[j].addr.service == info'[j].addr.service)
  }

  function Counted(info: InfoMap, floating: set<int>, id: int, inTried: bool): int {
    if id in info && id !in floating && info[id].inTried == inTried then 1 else 0
  }

  lemma TallyMoves(env: Env, info: InfoMap, info': InfoMap, floating: set<int>, floating': set<int>, id: int,
                   net: Network, inTried: bool, only: Option<Network>)
    requires SameElsewhere(info, info', floating, floating', id)
    requires id in info ==> NetOf(env, info[id]) == net
    requires id in info' ==> NetOf(env, info'[id]) == net
    ensures |Tally(env, info', floating', inTried, only)| ==
            |Tally(env, info, floating, inTried, only)| +
            (if only == None || only == Some(net)
             then Counted(info', floating', id, inTried) - Counted(info, floating, id, inTried) else 0)
  {
    var t := Tally(env, info, floating, inTried, only);
    var t' := Tally(env, info', floating', inTried, only);
    assert t - {id} == t' - {id} by {
      hide NetOf;
      assert forall j | j != id :: j in t <==> j in t';
    }
    OneApart(t, t', id);
  }

  /** Moving one entry between the tables moves exactly the counters it belongs to. */
  lemma CountsMove(env: Env, info: InfoMap, info': InfoMap, floating: set<int>, floating': set<int>, id: int,
                   net: Network, nNew: int, nTried: int, counts: map<Network, Count>)
    requires CountsOk(env, info, nNew, nTried, counts, floating)
    requires SameElsewhere(info, info', floating, floating', id)
    requires id in info ==> NetOf(env, info[id]) == net
    requires id in info' ==> NetOf(env, info'[id]) == net
    ensures var dNew := Counted(info', floating', id, false) - Counted(info, floating, id, false);
            var dTried := Counted(info', floating', id, true) - Counted(info, floating, id, true);
            && CountsOk(env, info', nNew + dNew, nTried + dTried, AddCount(counts, net, dNew, dTried), floating')
            && (dNew == dTried == 0 ==> CountsOk(env, info', nNew, nTried, counts, floating'))
  {
    hide Tally, SameElsewhere, NetOf, Counted, AddCount, CountOf;
    TallyMoves(env, info, info', floating, floating', id, net, false, None);
    TallyMoves(env, info, info', floating, floating', id, net, true, None);
    forall n: Network
      ensures var dNew := Counted(info', floating', id, false) - Counted(info, floating, id, false);
              var dTried := Counted(info', floating', id, true) - Counted(info, floating, id, true);
              && CountOf(AddCount(counts, net, dNew, dTried), n) ==
                 Count(|Tally(env, info', floating', false, Some(n))|, |Tally(env, info', floating', true, Some(n))|)
              && (dNew == dTried == 0 ==>
                    CountOf(counts, n) ==
                    Count(|Tally(env, info', floating', false, Some(n))|,
                          |Tally(env, info', floating', true, Some(n))|))
    {
      TallyMoves(env, info, info', floating, floating', id, net, false, Some(n));
      TallyMoves(env, info, info', floating, floating', id, net, true, Some(n));
      CountMoves(counts, net, n, Counted(info', floating', id, false) - Counted(info, floating, id, false),
        Counted(info', floating', id, true) - Counted(info, floating, id, true));
    }
  }

  lemma CountMoves(counts: map<Network, Count>, net: Network, n: Network, dNew: int, dTried: int)
    ensures CountOf(AddCount(counts, net, dNew, dTried), n) ==
            if n == net then Count(CountOf(counts, n).asNew + dNew, CountOf(counts, n).asTried + dTried)
            else CountOf(counts, n)
  {
  }

  // ----- record updates -----

  lemma RandomUpdate(info: InfoMap, random: seq<int>, id: int, i: AddrInfo)
    requires RandomOk(info, random) && id in info && i.randomPos == info[id].randomPos
    ensures RandomOk(info[id := i], random)
  {
  }

  lemma AddrUpdate(info: InfoMap, addr: map<Service, int>, id: int, i: AddrInfo)
    requires AddrOk(info, addr) && id in info && i.addr.service == info[id].addr.service
    ensures AddrOk(info[id := i], addr)
  {
  }

  lemma TriedUpdate(env: Env, key: Key, info: InfoMap, tab: map<Slot, int>, id: int, i: AddrInfo)
    requires TriedOk(env, key, info, tab)
    requires id in info && i.addr.service == info[id].addr.service && i.inTried == info[id].inTried
    ensures TriedOk(env, key, info[id := i], tab)
  {
  }

  lemma NewUpdate(env: Env, key: Key, info: InfoMap, tab: map<Slot, int>, floating: set<int>, id: int, i: AddrInfo)
    requires NewOk(env, key, info, tab, floating)
    requires id in info && i.addr.service == info[id].addr.service && i.inTried == info[id].inTried
    ensures NewOk(env, key, info[id := i], tab, floating)
  {
  }

  /** The two records agree on everything the indexes depend on. */
  predicate SameIndexing(i: AddrInfo, j: AddrInfo) {
    && i.addr.service == j.addr.service
    && i.refCount == j.refCount
    && i.inTried == j.inTried
    && i.randomPos == j.randomPos
  }

  lemma SetInfoKeeps(env: Env, s: State, id: int, i: AddrInfo, floating: set<int>, loose: set<int>)
    requires Inv(env, s, floating, loose)
    requires id in s.info && SameIndexing(i, s.info[id]) && TimeOk(i)
    ensures Inv(env, SetInfo(s, id, i), floating, loose)
  {
    hide AddrOk, RandomOk, TriedOk, NewOk, CountsOk;
    RandomUpdate(s.info, s.random, id, i);
    AddrUpdate(s.info, s.addr, id, i);
    TriedUpdate(env, s.key, s.info, s.triedTab, id, i);
    NewUpdate(env, s.key, s.info, s.newTab, floating, id, i);
    CountsMove(env, s.info, s.info[id := i], floating, floating, id, NetOf(env, i), s.nNew, s.nTried, s.counts);
  }

  // ----- creation -----

  lemma CreateIndexes(info: InfoMap, addr: map<Service, int>, random: seq<int>, id: int, i: AddrInfo)
    requires AddrOk(info, addr) && RandomOk(info, random)
    requires id !in info && i.addr.service !in addr && i.randomPos == |random|
    ensures AddrOk(info[id := i], addr[i.addr.service := id])
    ensures RandomOk(info[id := i], random + [id])
  {
  }

  lemma CreateTables(env: Env, key: Key, info: InfoMap, triedTab: map<Slot, int>, newTab: map<Slot, int>, id: int,
                     i: AddrInfo)
    requires TriedOk(env, key, info, triedTab) && NewOk(env, key, info, newTab, {}) && RefsOk(info, newTab, {}, {})
    requires id !in info && !i.inTried && i.refCount == 0
    ensures TriedOk(env, key, info[id := i], triedTab)
    ensures NewOk(env, key, info[id := i], newTab, {})
    ensures RefsOk(info[id := i], newTab, {}, {id})
  {
    hide TriedSlot, SlotInBucket;
    assert SlotsOf(newTab, id) == {};
  }

  lemma CreateKeeps(env: Env, s: State, a: Address, source: NetAddr)
    requires Consistent(env, s) && a.service !in s.addr
    ensures Inv(env, Create(env, s, a, source), {}, {s.idCount})
  {
    hide AddrOk, RandomOk, TriedOk, NewOk, RefsOk, CountsOk, AddCount;
    var i := NewAddrInfo(a, source).(randomPos := |s.random|);
    CreateIndexes(s.info, s.addr, s.random, s.idCount, i);
    CreateTables(env, s.key, s.info, s.triedTab, s.newTab, s.idCount, i);
    CountsMove(env, s.info, s.info[s.idCount := i], {}, {}, s.idCount, NetOf(env, i), s.nNew, s.nTried, s.counts);
  }

  // ----- the random order -----

  lemma SwapPositions(info: InfoMap, random: seq<int>, p: int, q: int)
    requires RandomOk(info, random) && 0 <= p < |random| && 0 <= q < |random| && p != q
    ensures var a, b := random[p], random[q];
            a in info && b in info && a != b &&
            RandomOk(info[a := info[a].(randomPos := q)][b := info[b].(randomPos := p)], random[p := b][q := a])
  {
  }

  lemma RandomPosKeeps(env: Env, s: State, id: int, pos: int, floating: set<int>, loose: set<int>)
    requires Rest(env, s, floating, loose) && id in s.info
    ensures Rest(env, SetInfo(s, id, s.info[id].(randomPos := pos)), floating, loose)
  {
    hide AddrOk, TriedOk, NewOk, CountsOk;
    var i := s.info[id].(randomPos := pos);
    AddrUpdate(s.info, s.addr, id, i);
    TriedUpdate(env, s.key, s.info, s.triedTab, id, i);
    NewUpdate(env, s.key, s.info, s.newTab, floating, id, i);
    CountsMove(env, s.info, s.info[id := i], floating, floating, id, NetOf(env, i), s.nNew, s.nTried, s.counts);
  }

  lemma SwapRandomKeeps(env: Env, s: State, p: int, q: int, floating: set<int>, loose: set<int>)
    requires Inv(env, s, floating, loose) && 0 <= p < |s.random| && 0 <= q < |s.random|
    ensures Inv(env, SwapRandom(s, p, q), floating, loose)
  {
    hide Rest;
    if p != q {
      var a, b := s.random[p], s.random[q];
      SwapPositions(s.info, s.random, p, q);
      var t := SetInfo(s, a, s.info[a].(randomPos := q));
      RandomPosKeeps(env, s, a, q, floating, loose);
      RandomPosKeeps(env, t, b, p, floating, loose);
      RestIgnoresRandom(env, SetInfo(t, b, s.info[b].(randomPos := p)), SwapRandom(s, p, q), floating, loose);
    }
  }

  lemma RestIgnoresRandom(env: Env, s: State, t: State, floating: set<int>, loose: set<int>)
    requires Rest(env, s, floating, loose) && t == s.(random := t.random)
    ensures Rest(env, t, floating, loose)
  {
  }

  // ----- deletion -----

  lemma DeleteIndexes(info: InfoMap, addr: map<Service, int>, random: seq<int>, id: int)
    requires AddrOk(info, addr) && RandomOk(info, random)
    requires id in info && info[id].randomPos == |random| - 1
    ensures AddrOk(info - {id}, addr - {info[id].addr.service})
    ensures RandomOk(info - {id}, random[..|random| - 1])
  {
  }

  lemma DeleteTables(env: Env, key: Key, info: InfoMap, triedTab: map<Slot, int>, newTab: map<Slot, int>,
                     floating: set<int>, loose: set<int>, id: int)
    requires TriedOk(env, key, info, triedTab) && NewOk(env, key, info, newTab, floating)
    requires RefsOk(info, newTab, floating, loose)
    requires id in info && !info[id].inTried && info[id].refCount == 0
    ensures TriedOk(env, key, info - {id}, triedTab)
    ensures NewOk(env, key, info - {id}, newTab, floating)
    ensures RefsOk(info - {id}, newTab, floating, loose - {id})
  {
    hide TriedSlot, SlotInBucket;
    assert SlotsOf(newTab, id) == {};
    assert forall slot | slot in newTab :: newTab[slot] == id ==> slot in SlotsOf(newTab, id);
  }

  /** Removing the entry at the end of the random order. */
  lemma DropLastKeeps(env: Env, s: State, id: int, floating: set<int>, loose: set<int>)
    requires Inv(env, s, floating, loose)
    requires id in s.info && id !in floating && !s.info[id].inTried && s.info[id].refCount == 0
    requires s.info[id].randomPos == |s.random| - 1
    ensures Inv(env, s.(random := s.random[..|s.random| - 1], info := s.info - {id},
                        addr := s.addr - {s.info[id].addr.service}, nNew := s.nNew - 1,
                        counts := AddCount(s.counts, NetOf(env, s.info[id]), -1, 0)), floating, loose - {id})
  {
    hide AddrOk, RandomOk, TriedOk, NewOk, RefsOk, CountsOk, AddCount;
    DeleteIndexes(s.info, s.addr, s.random, id);
    DeleteTables(env, s.key, s.info, s.triedTab, s.newTab, floating, loose, id);
    CountsMove(env, s.info, s.info - {id}, floating, floating, id, NetOf(env, s.info[id]), s.nNew, s.nTried, s.counts);
  }

  lemma SwapToLast(s: State, id: int)
    requires RandomOk(s.info, s.random) && id in s.info
    ensures 0 <= s.info[id].randomPos < |s.random|
    ensures var t := SwapRandom(s, s.info[id].randomPos, |s.random| - 1);
            && id in t.info && t.info[id] == s.info[id].(randomPos := |s.random| - 1)
            && |t.random| == |s.random|
            && t == s.(info := t.info, random := t.random)
  {
  }

  lemma DeleteKeeps(env: Env, s: State, id: int, floating: set<int>, loose: set<int>)
    requires Inv(env, s, floating, loose)
    requires id in s.info && id !in floating && !s.info[id].inTried && s.info[id].refCount == 0
    ensures Inv(env, Delete(env, s, id), floating, loose - {id})
  {
    hide Rest, RandomOk, SwapRandom, AddCount;
    var p, q := s.info[id].randomPos, |s.random| - 1;
    var t := SwapRandom(s, p, q);
    SwapToLast(s, id);
    SwapRandomKeeps(env, s, p, q, floating, loose);
    DropLastKeeps(env, t, id, floating, loose);
  }

  // ----- slots of the new table -----

  lemma SlotsRemove(tab: map<Slot, int>, slot: Slot, id: int)
    requires slot in tab
    ensures |SlotsOf(tab - {slot}, id)| == |SlotsOf(tab, id)| - (if tab[slot] == id then 1 else 0)
  {
    assert SlotsOf(tab - {slot}, id) == SlotsOf(tab, id) - {slot};
  }

  lemma SlotsPut(tab: map<Slot, int>, slot: Slot, id: int, j: int)
    requires slot !in tab
    ensures |SlotsOf(tab[slot := id], j)| == |SlotsOf(tab, j)| + (if j == id then 1 else 0)
  {
    assert SlotsOf(tab[slot := id], j) == SlotsOf(tab, j) + (if j == id then {slot} else {});
  }

  lemma RefsRemove(info: InfoMap, tab: map<Slot, int>, slot: Slot, floating: set<int>, loose: set<int>)
    requires RefsOk(info, tab, floating, loose) && slot in tab && tab[slot] in info
    ensures var id := tab[slot];
            var info' := info[id := info[id].(refCount := info[id].refCount - 1)];
            && info[id].refCount >= 1
            && RefsOk(info', tab - {slot}, floating, loose + {id})
            && (info[id].refCount > 1 ==> RefsOk(info', tab - {slot}, floating, loose))
  {
    hide SlotsOf;
    var id := tab[slot];
    forall j: int { SlotsRemove(tab, slot, j); }
  }

  lemma RefsPut(info: InfoMap, tab: map<Slot, int>, slot: Slot, id: int, floating: set<int>, loose: set<int>)
    requires RefsOk(info, tab, floating, loose)
    requires slot !in tab && id in info && info[id].refCount < NEW_BUCKETS_PER_ADDRESS
    ensures RefsOk(info[id := info[id].(refCount := info[id].refCount + 1)], tab[slot := id],
                   floating - {id}, loose - {id})
  {
    hide SlotsOf;
    forall j: int { SlotsPut(tab, slot, id, j); }
  }

  /** Emptying one slot, before the entry that lost its last reference is deleted. */
  lemma ReleaseKeeps(env: Env, s: State, slot: Slot, floating: set<int>, loose: set<int>)
    requires Inv(env, s, floating, loose) && slot in s.newTab
    ensures var id := s.newTab[slot];
            var t := Release(s, slot);
            && id in s.info && id !in floating && !s.info[id].inTried && s.info[id].refCount >= 1
            && t.info == s.info[id := s.info[id].(refCount := s.info[id].refCount - 1)]
            && t == s.(info := t.info, newTab := s.newTab - {slot})
            && Inv(env, t, floating, loose + {id})
            && (t.info[id].refCount > 0 ==> Inv(env, t, floating, loose))
  {
    hide AddrOk, RandomOk, TriedOk, NewOk, RefsOk, CountsOk;
    var id := s.newTab[slot];
    NewHolder(env, s.key, s.info, s.newTab, floating, slot);
    var i := s.info[id].(refCount := s.info[id].refCount - 1);
    RandomUpdate(s.info, s.random, id, i);
    AddrUpdate(s.info, s.addr, id, i);
    TriedUpdate(env, s.key, s.info, s.triedTab, id, i);
    NewUpdate(env, s.key, s.info, s.newTab, floating, id, i);
    NewShrinks(env, s.key, s.info[id := i], s.newTab, s.newTab - {slot}, floating);
    RefsRemove(s.info, s.newTab, slot, floating, loose);
    CountsMove(env, s.info, s.info[id := i], floating, floating, id, NetOf(env, i), s.nNew, s.nTried, s.counts);
  }

  lemma NewHolder(env: Env, key: Key, info: InfoMap, tab: map<Slot, int>, floating: set<int>, slot: Slot)
    requires NewOk(env, key, info, tab, floating) && slot in tab
    ensures tab[slot] in info && tab[slot] !in floating && !info[tab[slot]].inTried
    ensures slot == SlotInBucket(env, key, info[tab[slot]].addr.service, slot.bucket)
  {
  }

  lemma NewShrinks(env: Env, key: Key, info: InfoMap, tab: map<Slot, int>, tab': map<Slot, int>, floating: set<int>)
    requires NewOk(env, key, info, tab, floating)
    requires forall slot | slot in tab' :: slot in tab && tab'[slot] == tab[slot]
    ensures NewOk(env, key, info, tab', floating)
  {
  }

  lemma ClearNewKeeps(env: Env, s: State, slot: Slot, floating: set<int>, loose: set<int>)
    requires Inv(env, s, floating, loose)
    requires slot in s.newTab ==> s.newTab[slot] !in loose
    ensures Inv(env, ClearNew(env, s, slot), floating, loose)
  {
    hide Inv, Release, Delete;
    if slot in s.newTab {
      var id := s.newTab[slot];
      var t := Release(s, slot);
      ReleaseKeeps(env, s, slot, floating, loose);
      RefsNonNegative(env, t, id, floating, loose + {id});
      if t.info[id].refCount == 0 {
        DeleteKeeps(env, t, id, floating, loose + {id});
        assert loose + {id} - {id} == loose;
      }
    }
  }

  lemma RefsNonNegative(env: Env, s: State, id: int, floating: set<int>, loose: set<int>)
    requires Inv(env, s, floating, loose) && id in s.info
    ensures 0 <= s.info[id].refCount <= NEW_BUCKETS_PER_ADDRESS
  {
  }

  // ----- what the steps leave alone -----

  /** Equal up to the place in the random order. */
  predicate SameButPlace(i: AddrInfo, j: AddrInfo) { i == j.(randomPos := i.randomPos) }

  /** Only the record map, the new table, its counters and the random order may differ. */
  predicate SameFrame(s: State, t: State) {
    && t.key == s.key && t.idCount == s.idCount && t.triedTab == s.triedTab && t.nTried == s.nTried
    && t.collisions == s.collisions && t.lastGood == s.lastGood
  }

  lemma SwapRandomEffect(s: State, p: int, q: int)
    requires RandomOk(s.info, s.random)
    ensures var t := SwapRandom(s, p, q);
            && SameFrame(s, t) && t.newTab == s.newTab && t.info.Keys == s.info.Keys
            && (forall j | j in s.info :: SameButPlace(t.info[j], s.info[j]))
  {
  }

  lemma DeleteEffect(env: Env, s: State, id: int)
    requires RandomOk(s.info, s.random) && id in s.info
    ensures var t := Delete(env, s, id);
            && SameFrame(s, t) && t.newTab == s.newTab && t.info.Keys == s.info.Keys - {id}
            && (forall j | j in t.info :: SameButPlace(t.info[j], s.info[j]))
  {
    hide SwapRandom, RandomOk, AddCount, NetOf, SameButPlace;
    SwapRandomEffect(s, s.info[id].randomPos, |s.random| - 1);
  }

  /** ClearNew touches one slot of the new table and at most one entry. */
  lemma ClearNewEffect(env: Env, s: State, slot: Slot, floating: set<int>, loose: set<int>)
    requires Inv(env, s, floating, loose)
    ensures var t := ClearNew(env, s, slot);
            && SameFrame(s, t) && t.newTab == s.newTab - {slot} && t.info.Keys <= s.info.Keys
            && (forall j | j in s.info && !(slot in s.newTab && s.newTab[slot] == j) ::
                  j in t.info && SameButPlace(t.info[j], s.info[j]))
            && (forall j | j in t.info :: SameButPlace(t.info[j], s.info[j].(refCount := t.info[j].refCount)))
  {
    hide RandomOk, Rest, Delete, Release;
    if slot in s.newTab {
      ReleaseKeeps(env, s, slot, floating, loose);
      var t := Release(s, slot);
      DeleteEffect(env, t, s.newTab[slot]);
    } else {
      assert s.newTab - {slot} == s.newTab;
    }
  }

  // ----- entering and leaving the tables -----

  lemma NewGrows(env: Env, key: Key, info: InfoMap, tab: map<Slot, int>, floating: set<int>, slot: Slot, id: int)
    requires NewOk(env, key, info, tab, floating)
    requires id in info && !info[id].inTried && InNewTable(slot)
    requires slot == SlotInBucket(env, key, info[id].addr.service, slot.bucket)
    ensures NewOk(env, key, info, tab[slot := id], floating - {id})
  {
  }

  lemma PutNewKeeps(env: Env, s: State, slot: Slot, id: int, loose: set<int>)
    requires Inv(env, s, {}, loose)
    requires id in s.info && !s.info[id].inTried && s.info[id].refCount < NEW_BUCKETS_PER_ADDRESS
    requires slot !in s.newTab && InNewTable(slot)
    requires slot == SlotInBucket(env, s.key, s.info[id].addr.service, slot.bucket)
    ensures Inv(env, PutNew(s, slot, id), {}, loose - {id})
  {
    hide AddrOk, RandomOk, TriedOk, NewOk, RefsOk, CountsOk, SlotInBucket;
    var i := s.info[id].(refCount := s.info[id].refCount + 1);
    assert {} - {id} == {};
    RandomUpdate(s.info, s.random, id, i);
    AddrUpdate(s.info, s.addr, id, i);
    TriedUpdate(env, s.key, s.info, s.triedTab, id, i);
    NewUpdate(env, s.key, s.info, s.newTab, {}, id, i);
    NewGrows(env, s.key, s.info[id := i], s.newTab, {}, slot, id);
    RefsPut(s.info, s.newTab, slot, id, {}, loose);
    CountsMove(env, s.info, s.info[id := i], {}, {}, id, NetOf(env, i), s.nNew, s.nTried, s.counts);
  }

  lemma LeaveNewTables(env: Env, key: Key, info: InfoMap, tab: map<Slot, int>, id: int)
    requires NewOk(env, key, info, tab, {}) && RefsOk(info, tab, {}, {})
    requires id in info && !info[id].inTried
    ensures NewOk(env, key, info[id := info[id].(refCount := 0)], Without(tab, id), {id})
    ensures RefsOk(info[id := info[id].(refCount := 0)], Without(tab, id), {id}, {})
  {
    hide SlotInBucket;
    assert SlotsOf(Without(tab, id), id) == {};
    forall j | j != id ensures SlotsOf(Without(tab, id), j) == SlotsOf(tab, j) {}
  }

  lemma LeaveNewKeeps(env: Env, s: State, id: int)
    requires Consistent(env, s) && id in s.info && !s.info[id].inTried
    ensures Inv(env, LeaveNew(env, s, id), {id}, {})
  {
    hide AddrOk, RandomOk, TriedOk, NewOk, RefsOk, CountsOk, AddCount;
    var i := s.info[id].(refCount := 0);
    RandomUpdate(s.info, s.random, id, i);
    AddrUpdate(s.info, s.addr, id, i);
    TriedUpdate(env, s.key, s.info, s.triedTab, id, i);
    LeaveNewTables(env, s.key, s.info, s.newTab, id);
    CountsMove(env, s.info, s.info[id := i], {}, {id}, id, NetOf(env, i), s.nNew, s.nTried, s.counts);
  }

  lemma LeaveTriedTables(env: Env, key: Key, info: InfoMap, triedTab: map<Slot, int>, newTab: map<Slot, int>,
                         floating: set<int>, slot: Slot)
    requires TriedOk(env, key, info, triedTab) && NewOk(env, key, info, newTab, floating)
    requires RefsOk(info, newTab, floating, {}) && slot in triedTab
    ensures var id := triedTab[slot];
            && id in info && info[id].inTried && info[id].refCount == 0
            && var info' := info[id := info[id].(inTried := false)];
               && TriedOk(env, key, info', triedTab - {slot})
               && NewOk(env, key, info', newTab, floating + {id})
               && RefsOk(info', newTab, floating + {id}, {})
  {
    hide TriedSlot, SlotInBucket;
    var id := triedTab[slot];
    assert SlotsOf(newTab, id) == {};
  }

  lemma LeaveTriedKeeps(env: Env, s: State, slot: Slot, floating: set<int>)
    requires Inv(env, s, floating, {}) && slot in s.triedTab
    ensures Inv(env, LeaveTried(env, s, slot), floating + {s.triedTab[slot]}, {})
    ensures s.triedTab[slot] in s.info && s.info[s.triedTab[slot]].inTried && s.info[s.triedTab[slot]].refCount == 0
  {
    hide AddrOk, RandomOk, TriedOk, NewOk, RefsOk, CountsOk, AddCount;
    LeaveTriedTables(env, s.key, s.info, s.triedTab, s.newTab, floating, slot);
    var id := s.triedTab[slot];
    var i := s.info[id].(inTried := false);
    RandomUpdate(s.info, s.random, id, i);
    AddrUpdate(s.info, s.addr, id, i);
    CountsMove(env, s.info, s.info[id := i], floating, floating + {id}, id, NetOf(env, i), s.nNew, s.nTried, s.counts);
  }

  lemma ReturnToNewKeeps(env: Env, s: State, slot: Slot, id: int, floating: set<int>)
    requires Inv(env, s, floating, {}) && id in floating && s.info[id].refCount == 0
    requires slot !in s.newTab && InNewTable(slot)
    requires slot == SlotInBucket(env, s.key, s.info[id].addr.service, slot.bucket)
    ensures Inv(env, ReturnToNew(env, s, slot, id), floating - {id}, {})
  {
    hide AddrOk, RandomOk, TriedOk, NewOk, RefsOk, CountsOk, AddCount, SlotInBucket;
    var i := s.info[id].(refCount := 1);
    assert {} - {id} == {};
    RandomUpdate(s.info, s.random, id, i);
    AddrUpdate(s.info, s.addr, id, i);
    TriedUpdate(env, s.key, s.info, s.triedTab, id, i);
    NewUpdate(env, s.key, s.info, s.newTab, floating, id, i);
    NewGrows(env, s.key, s.info[id := i], s.newTab, floating, slot, id);
    RefsPut(s.info, s.newTab, slot, id, floating, {});
    CountsMove(env, s.info, s.info[id := i], floating, floating - {id}, id, NetOf(env, i), s.nNew, s.nTried, s.counts);
  }

  lemma EnterTriedTables(env: Env, key: Key, info: InfoMap, triedTab: map<Slot, int>, newTab: map<Slot, int>,
                         id: int, slot: Slot)
    requires TriedOk(env, key, info, triedTab) && NewOk(env, key, info, newTab, {id})
    requires RefsOk(info, newTab, {id}, {}) && id in info && !info[id].inTried
    requires slot == TriedSlot(env, key, info[id].addr.service) && slot !in triedTab
    ensures var info' := info[id := info[id].(inTried := true)];
            && TriedOk(env, key, info', triedTab[slot := id])
            && NewOk(env, key, info', newTab, {})
            && RefsOk(info', newTab, {}, {})
  {
    hide TriedSlot, SlotInBucket;
  }

  lemma EnterTriedKeeps(env: Env, s: State, slot: Slot, id: int)
    requires Inv(env, s, {id}, {}) && s.info[id].lastSuccess != 0
    requires slot == TriedSlot(env, s.key, s.info[id].addr.service) && slot !in s.triedTab
    ensures Consistent(env, EnterTried(env, s, slot, id))
  {
    hide AddrOk, RandomOk, TriedOk, NewOk, RefsOk, CountsOk, AddCount, TriedSlot;
    var i := s.info[id].(inTried := true);
    RandomUpdate(s.info, s.random, id, i);
    AddrUpdate(s.info, s.addr, id, i);
    EnterTriedTables(env, s.key, s.info, s.triedTab, s.newTab, id, slot);
    CountsMove(env, s.info, s.info[id := i], {id}, {}, id, NetOf(env, i), s.nNew, s.nTried, s.counts);
  }
}
