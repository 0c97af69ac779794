/**
  What the operations do to the records: which statistics change, which stay, and exactly when an address is added.
  The rules are stated in seconds and counts, apart from the functions that compute them.
 */
module AddrManRecords {
  import opened Prelude
  import opened AddrTypes
  import opened AddrManSpec
  import opened AddrManInvariant
  import opened AddrManOps
  import opened AddrManOutcomes

  // ----- what is remembered -----

  /** Everything the manager remembers about an entry, apart from where it stands. */
  predicate SameMemory(i: AddrInfo, j: AddrInfo) {
    && i.addr == j.addr && i.source == j.source && i.lastTry == j.lastTry
    && i.lastCountAttempt == j.lastCountAttempt && i.lastSuccess == j.lastSuccess && i.attempts == j.attempts
  }

  /** No entry is new, and no surviving entry is remembered differently. */
  ghost predicate Remembered(info: InfoMap, info': InfoMap) {
    forall j | j in info' :: j in info && SameMemory(info'[j], info[j])
  }

  lemma RememberedTrans(info: InfoMap, info': InfoMap, info'': InfoMap)
    requires Remembered(info, info') && Remembered(info', info'')
    ensures Remembered(info, info'')
  {
  }

  lemma ClearNewRemembers(env: Env, s: State, slot: Slot, floating: set<int>, loose: set<int>)
    requires Inv(env, s, floating, loose)
    ensures Remembered(s.info, ClearNew(env, s, slot).info)
  {
    hide Inv, ClearNew;
    ClearNewEffect(env, s, slot, floating, loose);
  }

  // ----- MakeTried -----

  /** Moving an entry to tried forgets nothing: not of it, not of the entry it evicts, not of any other. */
  lemma MakeTriedRemembers(env: Env, s: State, id: int)
    requires Consistent(env, s) && id in s.info && !s.info[id].inTried
    ensures Remembered(s.info, MakeTried(env, s, id).info)
  {
    hide Inv, LeaveNew, Evict, EnterTried, TriedSlot, Remembered;
    var slot := TriedSlotOf(env, s, id);
    var t := LeaveNew(env, s, id);
    LeaveNewKeeps(env, s, id);
    LeaveNewRemembers(env, s, id);
    EvictRemembers(env, t, slot, id);
    EvictOutcome(env, t, slot, id);
    EnterTriedRemembers(env, Evict(env, t, slot), slot, id);
    RememberedTrans(s.info, t.info, Evict(env, t, slot).info);
    RememberedTrans(s.info, Evict(env, t, slot).info, MakeTried(env, s, id).info);
  }

  lemma LeaveNewRemembers(env: Env, s: State, id: int)
    requires id in s.info
    ensures Remembered(s.info, LeaveNew(env, s, id).info)
  {
  }

  lemma EnterTriedRemembers(env: Env, s: State, slot: Slot, id: int)
    requires id in s.info
    ensures Remembered(s.info, EnterTried(env, s, slot, id).info)
  {
  }

  lemma EvictRemembers(env: Env, s: State, slot: Slot, id: int)
    requires Inv(env, s, {id}, {})
    ensures Remembered(s.info, Evict(env, s, slot).info)
  {
    hide Inv, LeaveTried, Rehome;
    if slot in s.triedTab {
      var prior := s.triedTab[slot];
      FloatingIsNew(env, s, {id}, {}, id);
      LeaveTriedKeeps(env, s, slot, {id});
      LeaveTriedEffect(env, s, slot);
      RehomeRemembers(env, LeaveTried(env, s, slot), prior, {id} + {prior});
    }
  }

  lemma RehomeRemembers(env: Env, s: State, id: int, floating: set<int>)
    requires Inv(env, s, floating, {}) && id in floating && id in s.info
    ensures Remembered(s.info, Rehome(env, s, id).info)
  {
    hide Inv, ClearNew, NewSlot;
    var home := HomeOf(env, s, id);
    ClearNewRemembers(env, s, home, floating, {});
    FloatingIsNew(env, s, floating, {}, id);
    ClearNewEffect(env, s, home, floating, {});
  }

  // ----- Good -----

  /** j after a success at `time`: its address, its source and the last counted attempt are untouched. */
  predicate Succeeded(i: AddrInfo, j: AddrInfo, time: int) {
    && i.addr == j.addr && i.source == j.source && i.lastCountAttempt == j.lastCountAttempt
    && i.lastTry == time && i.lastSuccess == time && i.attempts == 0
  }

  /** Only the entry `found` has had a success. */
  ghost predicate OneSucceeded(info: InfoMap, info': InfoMap, found: Option<int>, time: int) {
    forall j | j in info' ::
      j in info && if found == Some(j) then Succeeded(info'[j], info[j], time) else SameMemory(info'[j], info[j])
  }

  /** Good records the success of the entry and of nothing else, and loses no more entries than the move itself. */
  lemma GoodRecords(env: Env, s: State, a: Service, test: bool, time: int)
    requires Valid(env, s) && time > 0
    ensures var (t, moved) := Good(env, s, a, test, time);
            && OneSucceeded(s.info, t.info, Find(s, a), time) && t.lastGood == time
            && (moved ==> Find(s, a).Some? && t.info.Keys == MakeTried(env, s, Find(s, a).value).info.Keys)
            && (moved || |s.collisions| >= 10 ==> t.collisions == s.collisions)
  {
    hide Inv, CollisionsOk, MakeTried, TriedSlot;
    var s1 := s.(lastGood := time);
    LastGoodKeeps(env, s, time);
    FindFacts(env, s, a, {}, {});
    if Find(s, a).Some? {
      var id := Find(s, a).value;
      var i := s1.info[id].(lastSuccess := time, lastTry := time, attempts := 0);
      var t := SetInfo(s1, id, i);
      if !i.inTried {
        SetInfoKeeps(env, s1, id, i, {}, {});
        MakeTriedRemembers(env, t, id);
        MakeTriedKeeps(env, t, id);
        SameMove(env, s, t, id);
      }
    }
  }

  // ----- ResolveCollisions -----

  /** Whether the newcomer of a collision takes the slot now. */
  predicate Replaces(env: Env, s: State, id: int, now: int)
    requires id in s.info ==> TriedSlotOf(env, s, id) in s.triedTab && s.triedTab[TriedSlotOf(env, s, id)] in s.info
  {
    && id in s.info && env.valid(s.info[id].addr.service.ip)
    && var prior := s.info[s.triedTab[TriedSlotOf(env, s, id)]];
       !Reached(prior, now) && !Undecided(prior, s.info[id], now)
  }

  /**
    A collision that is decided for the newcomer counts as its success now; the tables are those of the move. Any other
    decision changes nothing but the collision set, and no decision touches another collision.
   */
  lemma ResolveRecords(env: Env, s: State, id: int, now: int)
    requires Valid(env, s) && id in s.collisions && now > 0
    ensures id in s.info ==> TriedSlotOf(env, s, id) in s.triedTab && s.triedTab[TriedSlotOf(env, s, id)] in s.info
    ensures var t := ResolveOne(env, s, id, now);
            && t.collisions - {id} == s.collisions - {id}
            && (if Replaces(env, s, id, now) then
                  && OneSucceeded(s.info, t.info, Some(id), now) && t.lastGood == now
                  && t.newTab == MakeTried(env, s, id).newTab && t.info.Keys == MakeTried(env, s, id).info.Keys
                else t == s.(collisions := t.collisions))
  {
    hide Inv, CollisionsOk, Good, TriedSlot, MakeTried, OneSucceeded, Find;
    if id in s.info {
      CollisionHolder(env, s, id);
      GoodOutcome(env, s, s.info[id].addr.service, false, now);
      GoodRecords(env, s, s.info[id].addr.service, false, now);
    }
  }

  // ----- Attempt, Connected, SetServices -----

  /** Nothing but one record differs. */
  ghost predicate OnlyRecord(s: State, t: State, found: Option<int>) {
    && t == s.(info := t.info) && t.info.Keys == s.info.Keys
    && (forall j | j in s.info && found != Some(j) :: t.info[j] == s.info[j])
  }

  /** An attempt is dated; a failure counts if none was counted since the last success of any entry. */
  lemma AttemptRecords(env: Env, s: State, a: Service, countFailure: bool, time: int)
    requires Valid(env, s)
    ensures var t := Attempt(s, a, countFailure, time);
            && OnlyRecord(s, t, Find(s, a))
            && (Find(s, a).Some? ==>
                  && Find(s, a).value in s.info
                  && var i, j := t.info[Find(s, a).value], s.info[Find(s, a).value];
                     var counts := countFailure && j.lastCountAttempt < s.lastGood;
                     && i.lastTry == time && i.attempts - j.attempts == (if counts then 1 else 0)
                     && i.lastCountAttempt == (if counts then time else j.lastCountAttempt)
                     && i.addr == j.addr && i.source == j.source && i.lastSuccess == j.lastSuccess
                     && SameIndexing(i, j))
  {
    hide Inv, CollisionsOk;
    FindFacts(env, s, a, {}, {});
  }

  /** A new manager counts from 1, so that a failure of an entry that never had one counts. */
  lemma FirstFailureCounts(key: Key, a: Address, source: NetAddr)
    ensures NewAddrInfo(a, source).lastCountAttempt < Initial(key).lastGood == 1
  {
  }

  datatype Try = Try(countFailure: bool, time: int)

  function AttemptAll(s: State, a: Service, tries: seq<Try>): State
    decreases |tries|
  {
    if tries == [] then s
    else
      var n := |tries| - 1;
      Attempt(AttemptAll(s, a, tries[..n]), a, tries[n].countFailure, tries[n].time)
  }

  /** However often an address is tried, without any success in between at most one failure is counted. */
  lemma {:induction false} FailuresCountOnce(env: Env, s: State, a: Service, tries: seq<Try>, id: int)
    requires Valid(env, s) && Find(s, a) == Some(id)
    requires s.lastGood >= 0 && forall k | 0 <= k < |tries| :: tries[k].time >= s.lastGood
    ensures var t := AttemptAll(s, a, tries);
            && Valid(env, t) && Find(t, a) == Some(id) && id in s.info && id in t.info && t.lastGood == s.lastGood
            && (if t.info[id].lastCountAttempt >= s.lastGood
                then s.info[id].attempts <= t.info[id].attempts <= s.info[id].attempts + 1
                else t.info[id].attempts == s.info[id].attempts)
            && (s.info[id].lastCountAttempt >= s.lastGood ==>
                  t.info[id].attempts == s.info[id].attempts && t.info[id].lastCountAttempt >= s.lastGood)
    decreases |tries|
  {
    hide Valid, Attempt;
    FindLive(s, a);
    if tries != [] {
      var n := |tries| - 1;
      FailuresCountOnce(env, s, a, tries[..n], id);
      var t := AttemptAll(s, a, tries[..n]);
      AttemptRecords(env, t, a, tries[n].countFailure, tries[n].time);
      AttemptKeeps(env, t, a, tries[n].countFailure, tries[n].time);
    }
  }

  lemma FindLive(s: State, a: Service)
    ensures Find(s, a).Some? ==> Find(s, a).value in s.info
  {
  }

  /** The stored time of a connected address is left alone unless it is more than twenty minutes behind. */
  lemma ConnectedRecords(env: Env, s: State, a: Service, time: int)
    requires Valid(env, s)
    ensures var t := Connected(s, a, time);
            && OnlyRecord(s, t, Find(s, a))
            && (Find(s, a).Some? ==>
                  && Find(s, a).value in s.info
                  && var i, j := t.info[Find(s, a).value], s.info[Find(s, a).value];
                     && i == j.(addr := j.addr.(time := i.addr.time))
                     && i.addr.time == if j.addr.time + 1200 < time then time else j.addr.time)
  {
    hide Inv, CollisionsOk;
    FindFacts(env, s, a, {}, {});
  }

  /** The services of an address are those last set, and nothing else about it changes. */
  lemma SetServicesRecords(env: Env, s: State, a: Service, services: bv64)
    requires Valid(env, s)
    ensures var t := SetServices(s, a, services);
            && OnlyRecord(s, t, Find(s, a))
            && (Find(s, a).Some? ==>
                  && Find(s, a).value in s.info
                  && var i, j := t.info[Find(s, a).value], s.info[Find(s, a).value];
                     i == j.(addr := j.addr.(services := i.addr.services)) && i.addr.services == services)
  {
    hide Inv, CollisionsOk;
    FindFacts(env, s, a, {}, {});
  }

  // ----- Add -----

  /** The rules for an entry that may be overwritten. */
  lemma TerribleRules(i: AddrInfo, now: int)
    ensures IsTerrible(i, now) <==>
            && now - i.lastTry > 60
            && (|| i.addr.time > now + 10 * 60
                || now - i.addr.time > 30 * 24 * 60 * 60
                || (i.lastSuccess == 0 && i.attempts >= 3)
                || (now - i.lastSuccess > 7 * 24 * 60 * 60 && i.attempts >= 10))
  {
  }

  /** The stored time is so far behind that it is replaced: by more than an hour for a peer seen today, else a day. */
  predicate FarBehind(i: AddrInfo, a: Address, penalty: int, now: int) {
    i.addr.time + (if now - a.time < 24 * 60 * 60 then 60 * 60 else 24 * 60 * 60) + penalty < a.time
  }

  /** A known address is news only if its time is later than the stored one, which is refreshed first. */
  predicate IsNews(i: AddrInfo, a: Address, penalty: int, now: int) {
    if FarBehind(i, a, penalty, now) then penalty > 0 && a.time > 0 else i.addr.time < a.time
  }

  function Penalty(a: Address, source: NetAddr, penalty: int): int {
    if a.service.ip == source then 0 else penalty
  }

  /**
    Exactly when an address is added. An unknown one needs a slot that is free, or held by a terrible entry or by one
    that has other slots. A known one needs news, luck, fewer than 8 slots and a slot that is free or held by another,
    terrible entry, and it must not be tried.
   */
  ghost predicate GetsIn(
    env: Env, s: State, a: Address, source: NetAddr, penalty: int, now: int, lucky: bool, slot: Slot)
    requires slot in s.newTab ==> s.newTab[slot] in s.info
    requires Find(s, a.service).Some? ==> Find(s, a.service).value in s.info
  {
    && IsRoutable(env, a.service.ip)
    && match Find(s, a.service)
       case None =>
         slot in s.newTab ==> var holder := s.info[s.newTab[slot]]; IsTerrible(holder, now) || holder.refCount > 1
       case Some(id) =>
         && IsNews(s.info[id], a, Penalty(a, source, penalty), now)
         && !s.info[id].inTried && s.info[id].refCount < 8 && lucky
         && (slot in s.newTab ==> s.newTab[slot] != id && IsTerrible(s.info[s.newTab[slot]], now))
  }

  lemma AddSingleDecides(env: Env, s: State, a: Address, source: NetAddr, penalty: int, now: int, lucky: bool)
    requires Valid(env, s)
    ensures var slot := NewSlot(env, s.key, a.service, source);
            && (slot in s.newTab ==> s.newTab[slot] in s.info)
            && (Find(s, a.service).Some? ==> Find(s, a.service).value in s.info)
            && (AddSingle(env, s, a, source, penalty, now, lucky).1 <==>
                  GetsIn(env, s, a, source, penalty, now, lucky, slot))
  {
    hide Inv, CollisionsOk, NewSlot, IsTerrible, IsRoutable, ClearNew, PutNew, Delete;
    var slot := NewSlot(env, s.key, a.service, source);
    if slot in s.newTab { HolderIsLive(env, s, slot); }
    FindLive(s, a.service);
    FindFacts(env, s, a.service, {}, {});
    match Find(s, a.service)
    case None =>
      if s.idCount in s.info { LiveIdIn(env, s, {}, {}, s.idCount); }
      if slot in s.newTab { LiveIdIn(env, s, {}, {}, s.newTab[slot]); }
    case Some(id) =>
      SettledHasSlot(env, s, id);
      RefsNonNegative(env, s, id, {}, {});
  }

  /** The entry that a slot's new holder displaces altogether: one that had no other slot. */
  function Displaced(tab: map<Slot, int>, slot: Slot): set<int> {
    if slot in tab && SlotsOf(tab, tab[slot]) == {slot} then {tab[slot]} else {}
  }

  lemma ClaimRecords(env: Env, s: State, id: int, slot: Slot, now: int, loose: set<int>)
    requires Inv(env, s, {}, loose) && loose <= {id} && id in s.info && !s.info[id].inTried
    requires id !in loose ==> s.info[id].refCount > 0
    requires id in loose ==> s.info[id].refCount == 0
    ensures var (t, added) := Claim(env, s, id, slot, now);
            && Remembered(s.info, t.info)
            && (added ==> t.info.Keys == s.info.Keys - Displaced(s.newTab, slot))
            && (added ==> id in t.info && t.info[id].refCount == s.info[id].refCount + 1 && !t.info[id].inTried)
  {
    hide Inv, ClearNew, Delete, GivesWay, SlotsOf, PutNew, Remembered;
    SameRemembered(s.info);
    if slot !in s.newTab {
      PutNewRecords(s, s, slot, id);
    } else if s.newTab[slot] != id {
      var t := ClearNew(env, s, slot);
      ClearNewEffect(env, s, slot, {}, loose);
      ClearNewLoses(env, s, slot, {}, loose);
      ClearNewRemembers(env, s, slot, {}, loose);
      assert SameButPlace(t.info[id], s.info[id]);
      PutNewRecords(s, t, slot, id);
      OrderOk(env, s, {}, loose);
      DeleteRemembers(env, s, id);
    }
  }

  lemma SameRemembered(info: InfoMap)
    ensures Remembered(info, info)
  {
  }

  lemma PutNewRecords(s: State, t: State, slot: Slot, id: int)
    requires Remembered(s.info, t.info) && id in t.info
    ensures var u := PutNew(t, slot, id);
            && Remembered(s.info, u.info) && u.info.Keys == t.info.Keys
            && u.info[id].refCount == t.info[id].refCount + 1 && u.info[id].inTried == t.info[id].inTried
  {
  }

  lemma DeleteRemembers(env: Env, s: State, id: int)
    requires RandomOk(s.info, s.random) && id in s.info
    ensures Remembered(s.info, Delete(env, s, id).info)
  {
    hide Delete, RandomOk;
    DeleteEffect(env, s, id);
  }

  /** A record as it is written for an unknown address: the announced services, the reduced time, no history. */
  predicate Fresh(i: AddrInfo, a: Address, source: NetAddr, penalty: int) {
    && i.addr == Address(a.service, Max(0, a.time - penalty), a.services) && i.source == source
    && i.lastTry == 0 && i.lastCountAttempt == 0 && i.lastSuccess == 0 && i.attempts == 0
    && !i.inTried && i.refCount == 1
  }

  /** A known record gains services and, if it was far behind, the reduced time; its history stays. */
  predicate Refreshed(i: AddrInfo, j: AddrInfo, a: Address, penalty: int, now: int) {
    && i.addr.service == j.addr.service && i.addr.services == j.addr.services | a.services
    && i.addr.time == (if FarBehind(j, a, penalty, now) then Max(0, a.time - penalty) else j.addr.time)
    && SameMemory(i, j.(addr := i.addr))
  }

  /** An added unknown address can be found under the next id; no other entry is touched, one at most displaced. */
  lemma AddUnknownRecords(env: Env, s: State, a: Address, source: NetAddr, penalty: int, now: int, lucky: bool)
    requires Valid(env, s) && Find(s, a.service) == None
    ensures var (t, added) := AddSingle(env, s, a, source, penalty, now, lucky);
            && (!added ==> Remembered(s.info, t.info))
            && (added ==>
                  && Find(t, a.service) == Some(s.idCount) && s.idCount in t.info && s.idCount !in s.info
                  && Fresh(t.info[s.idCount], a, source, Penalty(a, source, penalty))
                  && t.info.Keys == s.info.Keys + {s.idCount} -
                                    Displaced(s.newTab, NewSlot(env, s.key, a.service, source))
                  && (forall j | j in t.info && j != s.idCount :: j in s.info && SameMemory(t.info[j], s.info[j])))
  {
    hide Inv, CollisionsOk, Claim, AddCount, NewSlot, IsRoutable, SlotsOf;
    var p, slot, id := Penalty(a, source, penalty), NewSlot(env, s.key, a.service, source), s.idCount;
    if IsRoutable(env, a.service.ip) {
      FindFacts(env, s, a.service, {}, {});
      if id in s.info { LiveIdIn(env, s, {}, {}, id); }
      var t := Create(env, s, a, source);
      CreateKeeps(env, s, a, source);
      var i := t.info[id].(addr := t.info[id].addr.(time := Max(0, t.info[id].addr.time - p)));
      SetInfoKeeps(env, t, id, i, {}, {id});
      ClaimRecords(env, SetInfo(t, id, i), id, slot, now, {id});
      ClaimOutcome(env, SetInfo(t, id, i), id, slot, now, {id});
      AddSingleKeeps(env, s, a, source, penalty, now, lucky);
      FindBack(env, AddSingle(env, s, a, source, penalty, now, lucky).0, id);
    }
  }

  lemma FindBack(env: Env, s: State, id: int)
    requires Valid(env, s)
    ensures id in s.info ==> Find(s, s.info[id].addr.service) == Some(id)
  {
  }

  lemma AddKnownRecords(
    env: Env, s: State, a: Address, source: NetAddr, penalty: int, now: int, lucky: bool, id: int)
    requires Valid(env, s) && Find(s, a.service) == Some(id) && IsRoutable(env, a.service.ip)
    ensures var (t, added) := AddSingle(env, s, a, source, penalty, now, lucky);
            && id in s.info && id in t.info
            && Refreshed(t.info[id], s.info[id], a, Penalty(a, source, penalty), now)
            && t.info[id].refCount == s.info[id].refCount + (if added then 1 else 0)
            && t.info.Keys == s.info.Keys -
                              (if added then Displaced(s.newTab, NewSlot(env, s.key, a.service, source)) else {})
            && (forall j | j in t.info && j != id :: j in s.info && SameMemory(t.info[j], s.info[j]))
  {
    hide Inv, CollisionsOk, Claim, NewSlot, IsRoutable, SlotsOf, TimeOk;
    var p, slot := Penalty(a, source, penalty), NewSlot(env, s.key, a.service, source);
    FindFacts(env, s, a.service, {}, {});
    var i := Refresh(s.info[id], a, p, now);
    RecordTimes(env, s, id);
    RefreshTimes(s.info[id], a, p, now);
    var t := SetInfo(s, id, i);
    SetInfoKeeps(env, s, id, i, {}, {});
    if !i.inTried && i.refCount != NEW_BUCKETS_PER_ADDRESS {
      SettledHasSlot(env, s, id);
      ClaimRecords(env, t, id, slot, now, {});
      ClaimOutcome(env, t, id, slot, now, {});
    }
  }

  // ----- several at once -----

  /** Adding one address after another is adding all of them, and the answer is whether any was added. */
  lemma {:induction false} AddTogether(
    env: Env, s: State, xs: seq<AddItem>, ys: seq<AddItem>, source: NetAddr, penalty: int)
    ensures var (t, before) := Add(env, s, xs, source, penalty);
            var (u, after) := Add(env, t, ys, source, penalty);
            Add(env, s, xs + ys, source, penalty) == (u, before || after)
    ensures |ys| == 1 ==>
            var t := Add(env, s, xs, source, penalty).0;
            Add(env, t, ys, source, penalty) ==
            AddSingle(env, t, ys[0].address, source, penalty, ys[0].now, ys[0].lucky)
    decreases |ys|
  {
    hide AddSingle;
    if ys == [] {
      assert xs + ys == xs;
    } else {
      var n := |ys| - 1;
      assert (xs + ys)[..|xs| + n] == xs + ys[..n];
      AddTogether(env, s, xs, ys[..n], source, penalty);
    }
  }

  /** Collisions are resolved one after another. */
  lemma {:induction false} ResolveTogether(env: Env, s: State, xs: seq<Visit>, ys: seq<Visit>)
    ensures Resolve(env, s, xs + ys) == Resolve(env, Resolve(env, s, xs), ys)
    ensures |ys| == 1 ==> Resolve(env, s, ys) == ResolveOne(env, s, ys[0].id, ys[0].now)
    decreases |ys|
  {
    hide ResolveOne;
    if ys == [] {
      assert xs + ys == xs;
    } else {
      var n := |ys| - 1;
      assert (xs + ys)[..|xs| + n] == xs + ys[..n];
      ResolveTogether(env, s, xs, ys[..n]);
    }
  }

  // ----- GetAddr -----

  lemma SwapsPlaces(s: State, p: nat, q: nat)
    requires p < |s.random| && q < |s.random|
    ensures var r := SwapRandom(s, p, q).random;
            && |r| == |s.random| && r[p] == s.random[q] && r[q] == s.random[p]
            && (forall k | 0 <= k < |r| && k != p && k != q :: r[k] == s.random[k])
            && multiset(r) == multiset(s.random)
  {
    var r := s.random[p := s.random[q]][q := s.random[p]];
    if p == q { assert r == s.random; }
  }

  /** The entry drawn in round k, from the places not drawn before, stands at place k ever after; none is lost. */
  lemma {:induction false} ShuffleDraws(s: State, draws: seq<int>, k: nat)
    requires |draws| <= |s.random| && forall j | 0 <= j < |draws| :: j <= draws[j] < |s.random|
    ensures |Shuffle(s, draws).random| == |s.random|
    ensures multiset(Shuffle(s, draws).random) == multiset(s.random)
    ensures k < |draws| ==>
            && |Shuffle(s, draws[..k]).random| == |s.random|
            && Shuffle(s, draws).random[k] == Shuffle(s, draws[..k]).random[draws[k]]
    decreases |draws|
  {
    hide SwapRandom;
    if draws != [] {
      var n := |draws| - 1;
      ShuffleDraws(s, draws[..n], k);
      SwapsPlaces(Shuffle(s, draws[..n]), n, draws[n]);
      if k < n { assert draws[..n][..k] == draws[..k]; }
    }
  }
}
