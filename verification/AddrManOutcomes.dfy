/** What the operations achieve: the exact tables after a move, what may be lost, and what is rolled back. */
module AddrManOutcomes {
  import opened Prelude
  import opened AddrTypes
  import opened AddrManSpec
  import opened AddrManInvariant
  import opened AddrManOps

  // ----- clearing a slot -----

  /** An entry leaves the manager only with its last slot. */
  lemma ClearNewLoses(env: Env, s: State, slot: Slot, floating: set<int>, loose: set<int>)
    requires Inv(env, s, floating, loose)
    ensures var t := ClearNew(env, s, slot);
            t.info.Keys == s.info.Keys -
                           (if slot in s.newTab && SlotsOf(s.newTab, s.newTab[slot]) == {slot}
                            then {s.newTab[slot]} else {})
  {
    hide Rest, RandomOk, Release, Delete, SlotsOf;
    if slot in s.newTab {
      ReleaseKeeps(env, s, slot, floating, loose);
      var t, id := Release(s, slot), s.newTab[slot];
      LastSlot(env, s, slot, floating, loose);
      if t.info[id].refCount == 0 {
        DeleteEffect(env, t, id);
      }
    }
  }

  lemma LastSlot(env: Env, s: State, slot: Slot, floating: set<int>, loose: set<int>)
    requires Inv(env, s, floating, loose) && slot in s.newTab
    ensures s.newTab[slot] in s.info
    ensures s.info[s.newTab[slot]].refCount == 1 <==> SlotsOf(s.newTab, s.newTab[slot]) == {slot}
  {
    hide AddrOk, RandomOk, TriedOk, CountsOk;
    NewHolder(env, s.key, s.info, s.newTab, floating, slot);
    var slots := SlotsOf(s.newTab, s.newTab[slot]);
    assert slot in slots;
    if |slots| == 1 { SubsetCardinality({slot}, slots); }
  }

  // ----- MakeTried -----

  /** Where the evictee goes. */
  function HomeOf(env: Env, s: State, id: int): Slot { NewSlot(env, s.key, At(s, id).addr.service, At(s, id).source) }

  /**
    After a move to tried: the entry holds its tried slot and no new slot; the
    previous occupant is a new entry again, in its home slot; and at most one
    other entry is lost, namely one whose only slot was that home slot.
   */
  lemma MakeTriedOutcome(env: Env, s: State, id: int)
    requires Consistent(env, s) && id in s.info && !s.info[id].inTried
    ensures var t := MakeTried(env, s, id);
            var slot := TriedSlotOf(env, s, id);
            var rest := Without(s.newTab, id);
            if slot in s.triedTab then
              var prior := s.triedTab[slot];
              var home := HomeOf(env, s, prior);
              && t.newTab == rest[home := prior]
              && prior in t.info && prior != id && !t.info[prior].inTried && t.info[prior].refCount == 1
              && t.info.Keys == s.info.Keys -
                                (if home in rest && SlotsOf(rest, rest[home]) == {home} then {rest[home]} else {})
            else
              t.newTab == rest && t.info.Keys == s.info.Keys
  {
    hide Inv, LeaveNew, Evict, EnterTried, Without, TriedSlot, NewSlot, SlotsOf;
    var slot := TriedSlotOf(env, s, id);
    LeaveNewKeeps(env, s, id);
    LeaveNewEffect(env, s, id);
    LeaveNewTable(env, s, id);
    var t := LeaveNew(env, s, id);
    EvictOutcome(env, t, slot, id);
    EnterTriedTable(env, Evict(env, t, slot), slot, id);
    if slot in s.triedTab { TriedHolder(env, s, slot); }
  }

  lemma LeaveNewTable(env: Env, s: State, id: int)
    ensures LeaveNew(env, s, id).newTab == Without(s.newTab, id)
  {
  }

  lemma EnterTriedTable(env: Env, s: State, slot: Slot, id: int)
    ensures var t := EnterTried(env, s, slot, id);
            && t.newTab == s.newTab && t.info.Keys == s.info.Keys + {id}
            && (forall j | j in s.info && j != id :: t.info[j] == s.info[j])
  {
  }

  lemma EvictOutcome(env: Env, s: State, slot: Slot, id: int)
    requires Inv(env, s, {id}, {})
    ensures id in s.info && id in Evict(env, s, slot).info
    ensures var t := Evict(env, s, slot);
            if slot in s.triedTab then
              var prior := s.triedTab[slot];
              var home := HomeOf(env, s, prior);
              && t.newTab == s.newTab[home := prior]
              && prior in t.info && prior != id && !t.info[prior].inTried && t.info[prior].refCount == 1
              && t.info.Keys == s.info.Keys -
                                (if home in s.newTab && SlotsOf(s.newTab, s.newTab[home]) == {home}
                                 then {s.newTab[home]} else {})
            else
              t == s
  {
    hide Inv, LeaveTried, Rehome, SlotsOf, NewSlot;
    FloatingIsNew(env, s, {id}, {}, id);
    if slot in s.triedTab {
      var prior := s.triedTab[slot];
      LeaveTriedKeeps(env, s, slot, {id});
      LeaveTriedEffect(env, s, slot);
      var t := LeaveTried(env, s, slot);
      RehomeOutcome(env, t, prior, {id} + {prior});
      RehomeEffect(env, t, prior, {id} + {prior});
    }
  }

  lemma RehomeOutcome(env: Env, s: State, id: int, floating: set<int>)
    requires Inv(env, s, floating, {}) && id in floating && id in s.info
    ensures var t := Rehome(env, s, id);
            var home := HomeOf(env, s, id);
            && t.newTab == s.newTab[home := id]
            && id in t.info && !t.info[id].inTried && t.info[id].refCount == 1
            && t.info.Keys == s.info.Keys -
                              (if home in s.newTab && SlotsOf(s.newTab, s.newTab[home]) == {home}
                               then {s.newTab[home]} else {})
  {
    hide Inv, ClearNew, NewSlot, SlotsOf, AddCount, NetOf;
    var home := HomeOf(env, s, id);
    FloatingIsNew(env, s, floating, {}, id);
    ClearNewEffect(env, s, home, floating, {});
    ClearNewLoses(env, s, home, floating, {});
    var t := ClearNew(env, s, home);
    assert SameButPlace(t.info[id], s.info[id]);
    assert t.newTab[home := id] == s.newTab[home := id];
  }

  // ----- Good -----

  /** Good moves an entry exactly when it is a live new one and no test is pending; otherwise the tables stay. */
  lemma GoodOutcome(env: Env, s: State, a: Service, test: bool, time: int)
    requires Valid(env, s) && time > 0
    ensures var (t, moved) := Good(env, s, a, test, time);
            && (moved <==> Find(s, a).Some? && var id := Find(s, a).value;
                  !s.info[id].inTried && !(test && TriedSlotOf(env, s, id) in s.triedTab))
            && (moved ==> t.triedTab == s.triedTab[TriedSlotOf(env, s, Find(s, a).value) := Find(s, a).value]
                          && t.newTab == MakeTried(env, s, Find(s, a).value).newTab)
            && (!moved ==> t.triedTab == s.triedTab && t.newTab == s.newTab && t.info.Keys == s.info.Keys)
            && (!moved && |s.collisions| < SET_TRIED_COLLISION_SIZE ==>
                  t.collisions == s.collisions +
                    (if Find(s, a).Some? && !s.info[Find(s, a).value].inTried then {Find(s, a).value} else {}))
  {
    hide Inv, CollisionsOk, MakeTried, TriedSlot;
    var s1 := s.(lastGood := time);
    LastGoodKeeps(env, s, time);
    FindFacts(env, s, a, {}, {});
    if Find(s, a).Some? {
      var id := Find(s, a).value;
      var i := s1.info[id].(lastSuccess := time, lastTry := time, attempts := 0);
      var t := SetInfo(s1, id, i);
      SettledHasSlot(env, s, id);
      if !i.inTried {
        SetInfoKeeps(env, s1, id, i, {}, {});
        MakeTriedKeeps(env, t, id);
        SameMove(env, s, t, id);
      }
    }
  }

  /** The tables after MakeTried do not depend on the record's statistics. */
  lemma SameMove(env: Env, s: State, t: State, id: int)
    requires Consistent(env, s) && Consistent(env, t) && id in s.info && !s.info[id].inTried
    requires t == s.(info := t.info, lastGood := t.lastGood)
    requires id in t.info && t.info == s.info[id := t.info[id]] && SameIndexing(t.info[id], s.info[id])
    ensures MakeTried(env, t, id).newTab == MakeTried(env, s, id).newTab
    ensures MakeTried(env, t, id).info.Keys == MakeTried(env, s, id).info.Keys
  {
    hide Inv, MakeTried, TriedSlot, NewSlot, SlotsOf, Without;
    MakeTriedOutcome(env, s, id);
    MakeTriedOutcome(env, t, id);
    if TriedSlotOf(env, s, id) in s.triedTab { TriedHolder(env, s, TriedSlotOf(env, s, id)); }
  }

  // ----- Add -----

  /**
    Add reports true exactly when the address gains a slot, the one its source
    selects. When it reports false nothing was stored: an address created on the
    way is gone again.
   */
  lemma AddSingleOutcome(env: Env, s: State, a: Address, source: NetAddr, penalty: int, now: int, lucky: bool)
    requires Valid(env, s)
    ensures var (t, added) := AddSingle(env, s, a, source, penalty, now, lucky);
            var slot := NewSlot(env, s.key, a.service, source);
            && t.triedTab == s.triedTab
            && (added ==>
                  && slot in t.newTab && t.newTab[slot] in t.info
                  && t.info[t.newTab[slot]].addr.service == a.service
                  && !(slot in s.newTab && s.newTab[slot] == t.newTab[slot])
                  && t.newTab == s.newTab[slot := t.newTab[slot]])
            && (!added ==> t.newTab == s.newTab && t.info.Keys == s.info.Keys && t.addr == s.addr && t.nNew == s.nNew)
  {
    hide Inv, CollisionsOk, Claim, Create, IsRoutable, TimeOk, NewSlot;
    FindFacts(env, s, a.service, {}, {});
    var p := if a.service.ip == source then 0 else penalty;
    var slot := NewSlot(env, s.key, a.service, source);
    if IsRoutable(env, a.service.ip) {
      match Find(s, a.service)
      case Some(id) =>
        var i := Refresh(s.info[id], a, p, now);
        RecordTimes(env, s, id);
        RefreshTimes(s.info[id], a, p, now);
        var t := SetInfo(s, id, i);
        SetInfoKeeps(env, s, id, i, {}, {});
        if !i.inTried && i.refCount != NEW_BUCKETS_PER_ADDRESS {
          SettledHasSlot(env, s, id);
          ClaimOutcome(env, t, id, slot, now, {});
        }
      case None =>
        AddUnknownOutcome(env, s, a, source, p, slot, now);
    }
  }

  lemma AddUnknownOutcome(env: Env, s: State, a: Address, source: NetAddr, p: int, slot: Slot, now: int)
    requires Valid(env, s) && a.service !in s.addr
    ensures var t := Create(env, s, a, source);
            var id := s.idCount;
            var addr := At(t, id).addr;
            var (u, added) := Claim(env, SetInfo(t, id, At(t, id).(addr := addr.(time := Max(0, addr.time - p)))),
                                    id, slot, now);
            && u.triedTab == s.triedTab
            && (added ==>
                  && slot in u.newTab && u.newTab[slot] in u.info
                  && u.info[u.newTab[slot]].addr.service == a.service
                  && !(slot in s.newTab && s.newTab[slot] == u.newTab[slot])
                  && u.newTab == s.newTab[slot := u.newTab[slot]])
            && (!added ==> u.newTab == s.newTab && u.info.Keys == s.info.Keys && u.addr == s.addr && u.nNew == s.nNew)
  {
    hide Inv, CollisionsOk, Claim, AddCount;
    var t := Create(env, s, a, source);
    var id := s.idCount;
    CreateKeeps(env, s, a, source);
    if id in s.info { LiveIdIn(env, s, {}, {}, id); }
    var i := t.info[id].(addr := t.info[id].addr.(time := Max(0, t.info[id].addr.time - p)));
    SetInfoKeeps(env, t, id, i, {}, {id});
    var t' := SetInfo(t, id, i);
    ClaimOutcome(env, t', id, slot, now, {id});
    if slot in s.newTab { HolderIsLive(env, s, slot); LiveIdIn(env, s, {}, {}, s.newTab[slot]); }
    assert t.addr - {a.service} == s.addr;
    assert t'.info.Keys - {id} == s.info.Keys;
  }

  lemma HolderIsLive(env: Env, s: State, slot: Slot)
    requires Consistent(env, s) && slot in s.newTab
    ensures s.newTab[slot] in s.info
  {
  }

  lemma ClaimOutcome(env: Env, s: State, id: int, slot: Slot, now: int, loose: set<int>)
    requires Inv(env, s, {}, loose) && loose <= {id} && id in s.info && !s.info[id].inTried
    requires id !in loose ==> s.info[id].refCount > 0
    requires id in loose ==> s.info[id].refCount == 0
    ensures var (t, added) := Claim(env, s, id, slot, now);
            && t.triedTab == s.triedTab
            && (added ==>
                  && t.newTab == s.newTab[slot := id] && id in t.info
                  && t.info[id].addr.service == s.info[id].addr.service
                  && !(slot in s.newTab && s.newTab[slot] == id))
            && (!added ==> t.newTab == s.newTab)
            && (!added && id in loose ==>
                  t.info.Keys == s.info.Keys - {id} && t.addr == s.addr - {s.info[id].addr.service} &&
                  t.nNew == s.nNew - 1)
            && (!added && id !in loose ==> t == s)
  {
    hide Rest, RandomOk, ClearNew, PutNew, Delete, GivesWay;
    if slot !in s.newTab {
      PutNewTable(s, slot, id);
    } else if s.newTab[slot] == id {
      HeldMeansReferenced(env, s, slot, {}, loose);
    } else {
      ClearNewEffect(env, s, slot, {}, loose);
      var t := ClearNew(env, s, slot);
      assert SameButPlace(t.info[id], s.info[id]);
      PutNewTable(t, slot, id);
      assert t.newTab[slot := id] == s.newTab[slot := id];
      DeleteEffect(env, s, id);
      DeleteFields(env, s, id);
    }
  }

  lemma PutNewTable(s: State, slot: Slot, id: int)
    requires id in s.info
    ensures var t := PutNew(s, slot, id);
            && t.newTab == s.newTab[slot := id] && t.triedTab == s.triedTab
            && id in t.info && t.info[id].addr == s.info[id].addr
  {
  }

  lemma DeleteFields(env: Env, s: State, id: int)
    requires id in s.info
    ensures var t := Delete(env, s, id);
            t.addr == s.addr - {s.info[id].addr.service} && t.nNew == s.nNew - 1
  {
  }

  // ----- ResolveCollisions -----

  /** The tried entry was reached within the last four hours, so it stays. */
  predicate Reached(prior: AddrInfo, now: int) { now - prior.lastSuccess < 4 * 60 * 60 }

  /**
    No decision yet: the tried entry was asked within the last minute, or not within four hours while the newcomer has
    waited for at most forty minutes.
   */
  predicate Undecided(prior: AddrInfo, newcomer: AddrInfo, now: int) {
    && !Reached(prior, now)
    && (|| now - prior.lastTry <= 60
        || (now - prior.lastTry >= 4 * 60 * 60 && now - newcomer.lastSuccess <= 40 * 60))
  }

  /**
    A collision stays pending exactly while it is undecided, and the newcomer takes the slot exactly when its address
    is valid, the tried entry was not reached recently, and waiting is over. No other tried slot changes.
   */
  lemma ResolveOutcome(env: Env, s: State, id: int, now: int)
    requires Valid(env, s) && id in s.collisions && now > 0
    ensures id in s.info ==> TriedSlotOf(env, s, id) in s.triedTab && s.triedTab[TriedSlotOf(env, s, id)] in s.info
    ensures var t := ResolveOne(env, s, id, now);
            if id in s.info && env.valid(s.info[id].addr.service.ip) then
              var slot := TriedSlotOf(env, s, id);
              var prior := s.info[s.triedTab[slot]];
              && (id in t.collisions <==> Undecided(prior, s.info[id], now))
              && t.triedTab == (if Reached(prior, now) || Undecided(prior, s.info[id], now)
                                then s.triedTab else s.triedTab[slot := id])
            else id !in t.collisions && t.triedTab == s.triedTab
  {
    hide Inv, CollisionsOk, Good, TriedSlot;
    if id in s.info {
      CollisionHolder(env, s, id);
      Promotes(env, s, id, now);
    }
  }

  lemma Promotes(env: Env, s: State, id: int, now: int)
    requires Valid(env, s) && id in s.collisions && id in s.info && now > 0
    ensures Good(env, s, s.info[id].addr.service, false, now).0.triedTab == s.triedTab[TriedSlotOf(env, s, id) := id]
  {
    hide Inv, CollisionsOk, Good, TriedSlot, Find, MakeTried;
    CollisionHolder(env, s, id);
    GoodOutcome(env, s, s.info[id].addr.service, false, now);
  }

  lemma CollisionHolder(env: Env, s: State, id: int)
    requires Valid(env, s) && id in s.collisions && id in s.info
    ensures !s.info[id].inTried && Find(s, s.info[id].addr.service) == Some(id)
    ensures TriedSlotOf(env, s, id) in s.triedTab && s.triedTab[TriedSlotOf(env, s, id)] in s.info
  {
    hide IdsOk, RandomOk, NewOk, RefsOk, FloatingOk, CountsOk, TimesOk, TriedSlot;
  }
}
