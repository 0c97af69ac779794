/**
  The address manager as a value: its indexes, and every operation as a function
  from state to state. Randomness and clock readings are arguments.
 */
module AddrManSpec {
  import opened Prelude
  import opened AddrTypes

  datatype Count = Count(asNew: int, asTried: int)

  /**
    The fields of AddrManImpl. A table maps each occupied slot to the id stored
    there; an absent slot is one holding -1.
   */
  datatype State = State(
    key: Key,
    idCount: int,
    info: map<int, AddrInfo>,
    addr: map<Service, int>,
    random: seq<int>,
    nTried: int,
    triedTab: map<Slot, int>,
    nNew: int,
    newTab: map<Slot, int>,
    lastGood: int,
    collisions: set<int>,
    counts: map<Network, Count>)

  function Initial(key: Key): State {
    State(key, 0, map[], map[], [], 0, map[], 0, map[], 1, {}, map[])
  }

  const NO_INFO := NewAddrInfo(Address(Service(NetAddr(Unroutable, []), 0), 0, 0), NetAddr(Unroutable, []))

  /** mapInfo[id], where a missing id yields a default record. */
  function At(s: State, id: int): AddrInfo { if id in s.info then s.info[id] else NO_INFO }

  function CountOf(counts: map<Network, Count>, net: Network): Count {
    if net in counts then counts[net] else Count(0, 0)
  }

  function AddCount(counts: map<Network, Count>, net: Network, dNew: int, dTried: int): map<Network, Count> {
    var c := CountOf(counts, net);
    counts[net := Count(c.asNew + dNew, c.asTried + dTried)]
  }

  function NetOf(env: Env, i: AddrInfo): Network { GetNetwork(env, i.addr.service.ip) }

  function TriedSlotOf(env: Env, s: State, id: int): Slot { TriedSlot(env, s.key, At(s, id).addr.service) }

  // ----- internal steps (src/addrman.cpp:401-548) -----

  function Find(s: State, a: Service): Option<int> {
    if a in s.addr && s.addr[a] in s.info then Some(s.addr[a]) else None
  }

  /** Overwrites one record. */
  function SetInfo(s: State, id: int, i: AddrInfo): State { s.(info := s.info[id := i]) }

  function Create(env: Env, s: State, a: Address, source: NetAddr): State {
    var id := s.idCount;
    var i := NewAddrInfo(a, source).(randomPos := |s.random|);
    s.(idCount := id + 1,
       info := s.info[id := i],
       addr := s.addr[a.service := id],
       random := s.random + [id],
       nNew := s.nNew + 1,
       counts := AddCount(s.counts, GetNetwork(env, a.service.ip), 1, 0))
  }

  function SwapRandom(s: State, i: int, j: int): State {
    if i == j || !(0 <= i < |s.random| && 0 <= j < |s.random|) then s
    else
      var a, b := s.random[i], s.random[j];
      s.(info := s.info[a := At(s, a).(randomPos := j)][b := At(s, b).(randomPos := i)],
         random := s.random[i := b][j := a])
  }

  function Delete(env: Env, s: State, id: int): State {
    var i := At(s, id);
    var t := SwapRandom(s, i.randomPos, |s.random| - 1);
    t.(random := if t.random == [] then [] else t.random[..|t.random| - 1],
       info := t.info - {id},
       addr := t.addr - {i.addr.service},
       nNew := t.nNew - 1,
       counts := AddCount(t.counts, NetOf(env, i), -1, 0))
  }

  /** Empties an occupied new slot and drops the reference. */
  function Release(s: State, slot: Slot): State
    requires slot in s.newTab
  {
    var i := At(s, s.newTab[slot]);
    SetInfo(s, s.newTab[slot], i.(refCount := i.refCount - 1)).(newTab := s.newTab - {slot})
  }

  function ClearNew(env: Env, s: State, slot: Slot): State {
    if slot !in s.newTab then s
    else
      var id := s.newTab[slot];
      var t := Release(s, slot);
      if At(t, id).refCount == 0 then Delete(env, t, id) else t
  }

  /** Stores id in a new slot and counts the reference. */
  function PutNew(s: State, slot: Slot, id: int): State {
    SetInfo(s, id, At(s, id).(refCount := At(s, id).refCount + 1)).(newTab := s.newTab[slot := id])
  }

  /** A table with every slot of one entry emptied. */
  function Without(tab: map<Slot, int>, id: int): map<Slot, int> {
    map slot | slot in tab && tab[slot] != id :: tab[slot]
  }

  /** First part of MakeTried: the entry leaves every new bucket. */
  function LeaveNew(env: Env, s: State, id: int): State {
    SetInfo(s, id, At(s, id).(refCount := 0)).(
    newTab := Without(s.newTab, id),
    nNew := s.nNew - 1,
    counts := AddCount(s.counts, NetOf(env, At(s, id)), -1, 0))
  }

  /** Second part of MakeTried: the occupant of a tried slot leaves the tried table. */
  function LeaveTried(env: Env, s: State, slot: Slot): State
    requires slot in s.triedTab
  {
    var prior := s.triedTab[slot];
    SetInfo(s, prior, At(s, prior).(inTried := false)).(
    triedTab := s.triedTab - {slot},
    nTried := s.nTried - 1,
    counts := AddCount(s.counts, NetOf(env, At(s, prior)), 0, -1))
  }

  /** Third part of MakeTried: the evicted entry is stored in the new table again. */
  function ReturnToNew(env: Env, s: State, slot: Slot, id: int): State {
    SetInfo(s, id, At(s, id).(refCount := 1)).(
    newTab := s.newTab[slot := id],
    nNew := s.nNew + 1,
    counts := AddCount(s.counts, NetOf(env, At(s, id)), 1, 0))
  }

  /** Last part of MakeTried. */
  function EnterTried(env: Env, s: State, slot: Slot, id: int): State {
    SetInfo(s, id, At(s, id).(inTried := true)).(
    triedTab := s.triedTab[slot := id],
    nTried := s.nTried + 1,
    counts := AddCount(s.counts, NetOf(env, At(s, id)), 0, 1))
  }

  /** Clears the new slot the entry belongs to and stores the entry there. */
  function Rehome(env: Env, s: State, id: int): State {
    var home := NewSlot(env, s.key, At(s, id).addr.service, At(s, id).source);
    ReturnToNew(env, ClearNew(env, s, home), home, id)
  }

  /** Moves the occupant of a tried slot, if any, back to the new table. */
  function Evict(env: Env, s: State, slot: Slot): State {
    if slot in s.triedTab then Rehome(env, LeaveTried(env, s, slot), s.triedTab[slot]) else s
  }

  function MakeTried(env: Env, s: State, id: int): State {
    var slot := TriedSlotOf(env, s, id);
    EnterTried(env, Evict(env, LeaveNew(env, s, id), slot), slot, id)
  }

  // ----- operations (src/addrman.cpp:550-1001) -----

  /** Refreshes the record of an address that is already known. */
  function Refresh(i: AddrInfo, a: Address, penalty: int, now: int): AddrInfo {
    var interval := if now - a.time < DAY then HOUR else DAY;
    var time := if i.addr.time < a.time - interval - penalty then Max(0, a.time - penalty) else i.addr.time;
    i.(addr := i.addr.(time := time, services := i.addr.services | a.services))
  }

  /** Whether the occupant of a new slot gives way to an entry with `refCount` references. */
  predicate GivesWay(existing: AddrInfo, refCount: int, now: int) {
    IsTerrible(existing, now) || (existing.refCount > 1 && refCount == 0)
  }

  /** Last part of AddSingle: claim a slot for id, or drop id again when it has none. */
  function Claim(env: Env, s: State, id: int, slot: Slot, now: int): (State, bool) {
    if slot !in s.newTab then (PutNew(s, slot, id), true)
    else if s.newTab[slot] == id then (s, false)
    else if GivesWay(At(s, s.newTab[slot]), At(s, id).refCount, now) then
      (PutNew(ClearNew(env, s, slot), slot, id), true)
    else if At(s, id).refCount == 0 then (Delete(env, s, id), false)
    else (s, false)
  }

  /** `lucky` is whether the stochastic test of AddSingle lets the address through. */
  function AddSingle(env: Env, s: State, a: Address, source: NetAddr, penalty0: int, now: int, lucky: bool)
    : (State, bool)
  {
    if !IsRoutable(env, a.service.ip) then (s, false)
    else
      var penalty := if a.service.ip == source then 0 else penalty0;
      var slot := NewSlot(env, s.key, a.service, source);
      match Find(s, a.service)
      case Some(id) =>
        var i := Refresh(At(s, id), a, penalty, now);
        var t := SetInfo(s, id, i);
        if a.time <= i.addr.time || i.inTried || i.refCount == NEW_BUCKETS_PER_ADDRESS
           || (i.refCount > 0 && !lucky)
        then (t, false)
        else Claim(env, t, id, slot, now)
      case None =>
        var t := Create(env, s, a, source);
        var i := At(t, s.idCount);
        var u := SetInfo(t, s.idCount, i.(addr := i.addr.(time := Max(0, i.addr.time - penalty))));
        Claim(env, u, s.idCount, slot, now)
  }

  /** One address of a call to Add, with the clock reading and coin it meets. */
  datatype AddItem = AddItem(address: Address, now: int, lucky: bool)

  function Add(env: Env, s: State, items: seq<AddItem>, source: NetAddr, penalty: int): (State, bool)
    decreases |items|
  {
    if items == [] then (s, false)
    else
      var n := |items| - 1;
      var (t, before) := Add(env, s, items[..n], source, penalty);
      var (u, added) := AddSingle(env, t, items[n].address, source, penalty, items[n].now, items[n].lucky);
      (u, before || added)
  }

  function Good(env: Env, s0: State, a: Service, testBeforeEvict: bool, time: int): (State, bool) {
    var s := s0.(lastGood := time);
    match Find(s, a)
    case None => (s, false)
    case Some(id) =>
      var i := At(s, id).(lastSuccess := time, lastTry := time, attempts := 0);
      var t := SetInfo(s, id, i);
      if i.inTried || i.refCount <= 0 then (t, false)
      else if testBeforeEvict && TriedSlotOf(env, t, id) in t.triedTab then
        (if |t.collisions| < SET_TRIED_COLLISION_SIZE then t.(collisions := t.collisions + {id}) else t, false)
      else (MakeTried(env, t, id), true)
  }

  function Attempt(s: State, a: Service, countFailure: bool, time: int): State {
    match Find(s, a)
    case None => s
    case Some(id) =>
      var i := At(s, id).(lastTry := time);
      SetInfo(s, id,
              if countFailure && i.lastCountAttempt < s.lastGood
              then i.(lastCountAttempt := time, attempts := i.attempts + 1) else i)
  }

  function Connected(s: State, a: Service, time: int): State {
    match Find(s, a)
    case None => s
    case Some(id) =>
      var i := At(s, id);
      if time - i.addr.time > 20 * MINUTE then SetInfo(s, id, i.(addr := i.addr.(time := time))) else s
  }

  function SetServices(s: State, a: Service, services: bv64): State {
    match Find(s, a)
    case None => s
    case Some(id) => SetInfo(s, id, At(s, id).(addr := At(s, id).addr.(services := services)))
  }

  /** What ResolveCollisions_ decides for one collision: leave it, drop it, or move the entry to tried. */
  datatype Verdict = Keep | Drop | Replace

  function Judge(env: Env, s: State, id: int, now: int): Verdict {
    if id !in s.info then Drop
    else if !env.valid(At(s, id).addr.service.ip) then Drop
    else
      var slot := TriedSlotOf(env, s, id);
      if slot !in s.triedTab then Replace
      else
        var prior := At(s, s.triedTab[slot]);
        if now - prior.lastSuccess < REPLACEMENT then Drop
        else if now - prior.lastTry < REPLACEMENT then (if now - prior.lastTry > 60 then Replace else Keep)
        else if now - At(s, id).lastSuccess > TEST_WINDOW then Replace
        else Keep
  }

  function ResolveOne(env: Env, s: State, id: int, now: int): State {
    match Judge(env, s, id, now)
    case Keep => s
    case Drop => s.(collisions := s.collisions - {id})
    case Replace =>
      var t := Good(env, s, At(s, id).addr.service, false, now).0;
      t.(collisions := t.collisions - {id})
  }

  /** The ids of the collision set in the order in which they are visited, each with its clock reading. */
  datatype Visit = Visit(id: int, now: int)

  function Resolve(env: Env, s: State, visits: seq<Visit>): State
    decreases |visits|
  {
    if visits == [] then s
    else
      var n := |visits| - 1;
      ResolveOne(env, Resolve(env, s, visits[..n]), visits[n].id, visits[n].now)
  }

  /** `pick` is the member of the collision set that was drawn. */
  function SelectCollision(env: Env, s: State, pick: int): (State, Option<AddrInfo>) {
    if pick !in s.collisions then (s, None)
    else if pick !in s.info then (s.(collisions := s.collisions - {pick}), None)
    else
      var slot := TriedSlotOf(env, s, pick);
      (s, Some(if slot in s.triedTab then At(s, s.triedTab[slot]) else NO_INFO))
  }

  /** The reshuffling done by GetAddr_: position n is swapped with draws[n], for each n in turn. */
  function Shuffle(s: State, draws: seq<int>): State
    decreases |draws|
  {
    if draws == [] then s
    else
      var n := |draws| - 1;
      SwapRandom(Shuffle(s, draws[..n]), n, draws[n])
  }
}
