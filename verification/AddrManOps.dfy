/**
  Every public operation of the address manager keeps the cross-index invariant
  and the collision discipline, and no operation undoes certain facts: a tried
  slot, once occupied, stays occupied, and ids are not reused.
 */
module AddrManOps {
  import opened Prelude
  import opened AddrTypes
  import opened AddrManSpec
  import opened AddrManInvariant

  // ----- what an operation may not undo -----

  /**
    An entry is an old one, with its address, or a later arrival with a routable
    address; only `promoted` entries may become tried.
   */
  ghost predicate InfoEvolves(env: Env, bound: int, info: InfoMap, info': InfoMap, promoted: set<int>) {
    forall j | j in info' ::
      || (&& j in info
          && info'[j].addr.service == info[j].addr.service
          && (info'[j].inTried ==> info[j].inTried || j in promoted))
      || (j >= bound && IsRoutable(env, info'[j].addr.service.ip))
  }

  ghost predicate Evolves(env: Env, s: State, t: State, promoted: set<int>) {
    && t.key == s.key
    && s.idCount <= t.idCount
    && s.triedTab.Keys <= t.triedTab.Keys
    && InfoEvolves(env, s.idCount, s.info, t.info, promoted)
  }

  lemma EvolvesTrans(env: Env, s: State, t: State, u: State, p: set<int>, q: set<int>)
    requires Evolves(env, s, t, p) && Evolves(env, t, u, q)
    ensures Evolves(env, s, u, p + q)
  {
  }

  /** A pending collision that is still live is a new entry whose tried slot is taken. */
  ghost predicate CollisionsOk(env: Env, s: State, settled: set<int>) {
    && |s.collisions| <= SET_TRIED_COLLISION_SIZE
    && (forall c | c in s.collisions ::
          && 0 <= c < s.idCount
          && (c in s.info && c !in settled ==>
                !s.info[c].inTried && TriedSlot(env, s.key, s.info[c].addr.service) in s.triedTab))
  }

  /** What holds between public operations. */
  ghost predicate Valid(env: Env, s: State) { Consistent(env, s) && CollisionsOk(env, s, {}) }

  lemma CollisionsEvolve(env: Env, s: State, t: State, promoted: set<int>)
    requires CollisionsOk(env, s, {}) && Evolves(env, s, t, promoted) && t.collisions <= s.collisions
    ensures CollisionsOk(env, t, promoted)
  {
    hide TriedSlot;
    SubsetCardinality(t.collisions, s.collisions);
  }

  // ----- MakeTried -----

  /** A floating entry finds its way back into the new table. */
  lemma RehomeKeeps(env: Env, s: State, id: int, floating: set<int>)
    requires Inv(env, s, floating, {}) && id in floating && id in s.info && s.info[id].refCount == 0
    ensures Inv(env, Rehome(env, s, id), floating - {id}, {})
  {
    hide Inv, ClearNew, ReturnToNew, SlotInBucket;
    var home := NewSlot(env, s.key, s.info[id].addr.service, s.info[id].source);
    FloatingIsNew(env, s, floating, {}, id);
    ClearNewKeeps(env, s, home, floating, {});
    ClearNewEffect(env, s, home, floating, {});
    var t := ClearNew(env, s, home);
    assert SameButPlace(t.info[id], s.info[id]);
    ReturnToNewKeeps(env, t, home, id, floating);
  }

  lemma EvictKeeps(env: Env, s: State, slot: Slot, id: int)
    requires Inv(env, s, {id}, {})
    ensures Inv(env, Evict(env, s, slot), {id}, {})
  {
    hide Inv, LeaveTried, Rehome;
    if slot in s.triedTab {
      var prior := s.triedTab[slot];
      FloatingIsNew(env, s, {id}, {}, id);
      LeaveTriedKeeps(env, s, slot, {id});
      LeaveTriedEffect(env, s, slot);
      RehomeKeeps(env, LeaveTried(env, s, slot), prior, {id} + {prior});
      assert {id} + {prior} - {prior} == {id};
    }
  }

  /** A floating entry is a new one that no slot holds. */
  lemma FloatingIsNew(env: Env, s: State, floating: set<int>, loose: set<int>, id: int)
    requires Inv(env, s, floating, loose) && id in floating
    ensures id in s.info && !s.info[id].inTried
    ensures forall slot | slot in s.newTab :: s.newTab[slot] != id
  {
  }

  lemma LeaveTriedEffect(env: Env, s: State, slot: Slot)
    requires slot in s.triedTab && s.triedTab[slot] in s.info
    ensures var t := LeaveTried(env, s, slot);
            var prior := s.triedTab[slot];
            && t.info == s.info[prior := s.info[prior].(inTried := false)]
            && t.triedTab == s.triedTab - {slot}
            && t.key == s.key && t.idCount == s.idCount && t.newTab == s.newTab
            && t.collisions == s.collisions && t.lastGood == s.lastGood
  {
  }

  /** After the eviction only the tried slot is free; the evictee is a new entry again. */
  lemma EvictEffect(env: Env, s: State, slot: Slot, id: int)
    requires Inv(env, s, {id}, {})
    ensures var t := Evict(env, s, slot);
            && t.key == s.key && t.idCount == s.idCount && t.collisions == s.collisions && t.lastGood == s.lastGood
            && t.triedTab == s.triedTab - {slot}
            && id in s.info && id in t.info && SameButPlace(t.info[id], s.info[id])
            && InfoEvolves(env, s.idCount, s.info, t.info, {})
  {
    hide Inv, LeaveTried, Rehome;
    FloatingIsNew(env, s, {id}, {}, id);
    if slot in s.triedTab {
      var prior := s.triedTab[slot];
      LeaveTriedKeeps(env, s, slot, {id});
      LeaveTriedEffect(env, s, slot);
      RehomeEffect(env, LeaveTried(env, s, slot), prior, {id} + {prior});
    } else {
      assert s.triedTab - {slot} == s.triedTab;
    }
  }

  lemma RehomeEffect(env: Env, s: State, id: int, floating: set<int>)
    requires Inv(env, s, floating, {}) && id in floating && id in s.info
    ensures var t := Rehome(env, s, id);
            && t.key == s.key && t.idCount == s.idCount && t.collisions == s.collisions && t.lastGood == s.lastGood
            && t.triedTab == s.triedTab
            && (forall j | j in floating && j != id :: j in t.info && j in s.info && SameButPlace(t.info[j], s.info[j]))
            && t.info.Keys <= s.info.Keys
            && (forall j | j in t.info ::
                  t.info[j].addr.service == s.info[j].addr.service && t.info[j].inTried == s.info[j].inTried)
  {
    hide Inv, ClearNew, NewSlot, SlotInBucket;
    var home := NewSlot(env, s.key, s.info[id].addr.service, s.info[id].source);
    forall j | j in floating { FloatingIsNew(env, s, floating, {}, j); }
    ClearNewEffect(env, s, home, floating, {});
  }

  lemma LeaveNewEffect(env: Env, s: State, id: int)
    requires id in s.info
    ensures var t := LeaveNew(env, s, id);
            && t.info == s.info[id := s.info[id].(refCount := 0)]
            && t.key == s.key && t.idCount == s.idCount && t.triedTab == s.triedTab
            && t.collisions == s.collisions && t.lastGood == s.lastGood
  {
  }

  lemma EnterTriedEffect(env: Env, s: State, slot: Slot, id: int)
    requires id in s.info
    ensures var t := EnterTried(env, s, slot, id);
            && t.info == s.info[id := s.info[id].(inTried := true)]
            && t.key == s.key && t.idCount == s.idCount && t.triedTab == s.triedTab[slot := id]
            && t.collisions == s.collisions && t.lastGood == s.lastGood
  {
  }

  /** Moving an entry to tried: the whole invariant, the tables it changes, and the entries it keeps. */
  lemma MakeTriedKeeps(env: Env, s: State, id: int)
    requires Consistent(env, s) && id in s.info && !s.info[id].inTried && s.info[id].lastSuccess != 0
    ensures var t := MakeTried(env, s, id);
            && Consistent(env, t)
            && t.triedTab == s.triedTab[TriedSlotOf(env, s, id) := id]
            && t.collisions == s.collisions && t.lastGood == s.lastGood
            && Evolves(env, s, t, {id})
            && id in t.info && t.info[id].inTried
  {
    hide Inv, LeaveNew, Evict, EnterTried, TriedSlot;
    var slot := TriedSlotOf(env, s, id);
    LeaveNewKeeps(env, s, id);
    LeaveNewEffect(env, s, id);
    var t := LeaveNew(env, s, id);
    EvictKeeps(env, t, slot, id);
    EvictEffect(env, t, slot, id);
    var u := Evict(env, t, slot);
    EnterTriedKeeps(env, u, slot, id);
    EnterTriedEffect(env, u, slot, id);
  }

  // ----- operations that rewrite one record -----

  lemma FindFacts(env: Env, s: State, a: Service, floating: set<int>, loose: set<int>)
    requires Inv(env, s, floating, loose)
    ensures match Find(s, a)
            case Some(id) => id in s.info && s.info[id].addr.service == a
            case None => a !in s.addr
  {
  }

  lemma TouchKeeps(env: Env, s: State, id: int, i: AddrInfo)
    requires Valid(env, s) && id in s.info && SameIndexing(i, s.info[id]) && TimeOk(i)
    ensures Valid(env, SetInfo(s, id, i)) && Evolves(env, s, SetInfo(s, id, i), {})
  {
    hide Inv, CollisionsOk;
    SetInfoKeeps(env, s, id, i, {}, {});
    CollisionsEvolve(env, s, SetInfo(s, id, i), {});
  }

  lemma RecordTimes(env: Env, s: State, id: int)
    requires Consistent(env, s) && id in s.info
    ensures TimeOk(s.info[id])
  {
  }

  lemma AttemptKeeps(env: Env, s: State, a: Service, countFailure: bool, time: int)
    requires Valid(env, s) && time >= 0
    ensures Valid(env, Attempt(s, a, countFailure, time)) && Evolves(env, s, Attempt(s, a, countFailure, time), {})
  {
    hide Inv, CollisionsOk;
    FindFacts(env, s, a, {}, {});
    if Find(s, a).Some? {
      var id := Find(s, a).value;
      RecordTimes(env, s, id);
      TouchKeeps(env, s, id, Attempt(s, a, countFailure, time).info[id]);
    }
  }

  lemma ConnectedKeeps(env: Env, s: State, a: Service, time: int)
    requires Valid(env, s)
    ensures Valid(env, Connected(s, a, time)) && Evolves(env, s, Connected(s, a, time), {})
  {
    hide Inv, CollisionsOk;
    FindFacts(env, s, a, {}, {});
    if Find(s, a).Some? {
      var id := Find(s, a).value;
      RecordTimes(env, s, id);
      TouchKeeps(env, s, id, s.info[id].(addr := s.info[id].addr.(time := time)));
    }
  }

  lemma SetServicesKeeps(env: Env, s: State, a: Service, services: bv64)
    requires Valid(env, s)
    ensures Valid(env, SetServices(s, a, services)) && Evolves(env, s, SetServices(s, a, services), {})
  {
    hide Inv, CollisionsOk;
    FindFacts(env, s, a, {}, {});
    if Find(s, a).Some? {
      var id := Find(s, a).value;
      RecordTimes(env, s, id);
      TouchKeeps(env, s, id, s.info[id].(addr := s.info[id].addr.(services := services)));
    }
  }

  // ----- Add -----

  /** Entries only disappear or change references; nothing else about them moves. */
  lemma ShrinkEvolves(env: Env, s: State, t: State)
    requires SameFrame(s, t) && t.info.Keys <= s.info.Keys
    requires forall j | j in t.info :: SameButPlace(t.info[j], s.info[j].(refCount := t.info[j].refCount))
    ensures Evolves(env, s, t, {})
  {
  }

  lemma LooseSettles(env: Env, s: State, id: int, loose: set<int>)
    requires Inv(env, s, {}, loose) && loose <= {id} && (id in s.info ==> s.info[id].refCount > 0)
    ensures Consistent(env, s)
  {
  }

  lemma PutNewEvolves(env: Env, s: State, slot: Slot, id: int)
    requires id in s.info
    ensures Evolves(env, s, PutNew(s, slot, id), {}) && PutNew(s, slot, id).collisions == s.collisions
  {
  }

  lemma HeldMeansReferenced(env: Env, s: State, slot: Slot, floating: set<int>, loose: set<int>)
    requires Inv(env, s, floating, loose) && slot in s.newTab
    ensures s.newTab[slot] in s.info && s.info[s.newTab[slot]].refCount > 0
  {
    hide Rest;
    ReleaseKeeps(env, s, slot, floating, loose);
  }

  /** Overwriting another entry's slot. */
  lemma OverwriteKeeps(env: Env, s: State, id: int, slot: Slot, loose: set<int>)
    requires Inv(env, s, {}, loose) && loose <= {id}
    requires id in s.info && !s.info[id].inTried && s.info[id].refCount < NEW_BUCKETS_PER_ADDRESS
    requires InNewTable(slot) && slot == SlotInBucket(env, s.key, s.info[id].addr.service, slot.bucket)
    requires slot in s.newTab && s.newTab[slot] != id
    ensures var t := PutNew(ClearNew(env, s, slot), slot, id);
            Consistent(env, t) && Evolves(env, s, t, {}) && t.collisions == s.collisions
  {
    hide Inv, ClearNew, SlotInBucket, InNewTable, PutNew;
    ClearNewKeeps(env, s, slot, {}, loose);
    ClearNewEffect(env, s, slot, {}, loose);
    var t := ClearNew(env, s, slot);
    assert SameButPlace(t.info[id], s.info[id]);
    PutNewKeeps(env, t, slot, id, loose);
    assert loose - {id} == {};
    ShrinkEvolves(env, s, t);
    PutNewEvolves(env, t, slot, id);
    EvolvesTrans(env, s, t, PutNew(t, slot, id), {}, {});
  }

  lemma ClaimKeeps(env: Env, s: State, id: int, slot: Slot, now: int, loose: set<int>)
    requires Inv(env, s, {}, loose) && loose <= {id}
    requires id in s.info && !s.info[id].inTried && s.info[id].refCount < NEW_BUCKETS_PER_ADDRESS
    requires InNewTable(slot) && slot == SlotInBucket(env, s.key, s.info[id].addr.service, slot.bucket)
    ensures var t := Claim(env, s, id, slot, now).0;
            Consistent(env, t) && Evolves(env, s, t, {}) && t.collisions == s.collisions
  {
    hide Inv, ClearNew, SlotInBucket, InNewTable, PutNew, Delete, GivesWay, Evolves;
    ReflEvolves(env, s);
    RefsNonNegative(env, s, id, {}, loose);
    if slot !in s.newTab {
      PutNewKeeps(env, s, slot, id, loose);
      PutNewEvolves(env, s, slot, id);
      assert loose - {id} == {};
    } else if s.newTab[slot] == id {
      HeldMeansReferenced(env, s, slot, {}, loose);
      LooseSettles(env, s, id, loose);
    } else {
      OverwriteKeeps(env, s, id, slot, loose);
      if s.info[id].refCount == 0 {
        DeleteKeepsEntry(env, s, id, loose);
      } else {
        LooseSettles(env, s, id, loose);
      }
    }
  }

  lemma ReflEvolves(env: Env, s: State)
    ensures Evolves(env, s, s, {})
  {
  }

  lemma DeleteKeepsEntry(env: Env, s: State, id: int, loose: set<int>)
    requires Inv(env, s, {}, loose) && loose <= {id}
    requires id in s.info && !s.info[id].inTried && s.info[id].refCount == 0
    ensures var t := Delete(env, s, id);
            Consistent(env, t) && Evolves(env, s, t, {}) && t.collisions == s.collisions
  {
    hide Rest, Delete;
    DeleteKeeps(env, s, id, {}, loose);
    assert loose - {id} == {};
    DeleteEffect(env, s, id);
    ShrinkEvolves(env, s, Delete(env, s, id));
  }

  /** A known address: refreshed, and perhaps given one more slot. */
  lemma AddKnownKeeps(env: Env, s: State, id: int, i: AddrInfo, slot: Slot, now: int)
    requires Valid(env, s) && id in s.info && SameIndexing(i, s.info[id]) && TimeOk(i)
    requires InNewTable(slot) && slot == SlotInBucket(env, s.key, i.addr.service, slot.bucket)
    requires !i.inTried && i.refCount != NEW_BUCKETS_PER_ADDRESS
    ensures var t := Claim(env, SetInfo(s, id, i), id, slot, now).0;
            Valid(env, t) && Evolves(env, s, t, {})
  {
    hide Inv, CollisionsOk, SlotInBucket, InNewTable, Claim, TimeOk;
    var t := SetInfo(s, id, i);
    TouchKeeps(env, s, id, i);
    RefsNonNegative(env, t, id, {}, {});
    ClaimKeeps(env, t, id, slot, now, {});
    var u := Claim(env, t, id, slot, now).0;
    CollisionsEvolve(env, t, u, {});
    EvolvesTrans(env, s, t, u, {}, {});
  }

  /** An unknown address: created, and either given a slot or dropped again. */
  lemma AddUnknownKeeps(env: Env, s: State, a: Address, source: NetAddr, time: int, slot: Slot, now: int)
    requires Valid(env, s) && a.service !in s.addr && IsRoutable(env, a.service.ip)
    requires InNewTable(slot) && slot == SlotInBucket(env, s.key, a.service, slot.bucket)
    ensures var t := Create(env, s, a, source);
            var i := At(t, s.idCount);
            var u := Claim(env, SetInfo(t, s.idCount, i.(addr := i.addr.(time := time))), s.idCount, slot, now).0;
            Valid(env, u) && Evolves(env, s, u, {})
  {
    hide Inv, CollisionsOk, SlotInBucket, InNewTable, Claim, AddCount;
    var t := Create(env, s, a, source);
    var id := s.idCount;
    CreateKeeps(env, s, a, source);
    var t' := SetInfo(t, id, t.info[id].(addr := t.info[id].addr.(time := time)));
    SetInfoKeeps(env, t, id, t'.info[id], {}, {id});
    if id in s.info { LiveIdIn(env, s, {}, {}, id); }
    CreateEvolves(env, s, a, source, time);
    ClaimKeeps(env, t', id, slot, now, {id});
    var u := Claim(env, t', id, slot, now).0;
    EvolvesTrans(env, s, t', u, {}, {});
    CollisionsEvolve(env, s, u, {});
  }

  lemma CreateEvolves(env: Env, s: State, a: Address, source: NetAddr, time: int)
    requires s.idCount !in s.info && IsRoutable(env, a.service.ip)
    ensures var t := Create(env, s, a, source);
            var u := SetInfo(t, s.idCount, t.info[s.idCount].(addr := t.info[s.idCount].addr.(time := time)));
            Evolves(env, s, u, {}) && u.collisions == s.collisions && u.key == s.key
  {
  }

  lemma AddSingleKeeps(env: Env, s: State, a: Address, source: NetAddr, penalty: int, now: int, lucky: bool)
    requires Valid(env, s)
    ensures var t := AddSingle(env, s, a, source, penalty, now, lucky).0;
            Valid(env, t) && Evolves(env, s, t, {})
  {
    hide Inv, CollisionsOk, Claim, Create, SetInfo, IsRoutable, TimeOk, Evolves;
    ReflEvolves(env, s);
    FindFacts(env, s, a.service, {}, {});
    var p := if a.service.ip == source then 0 else penalty;
    var slot := NewSlot(env, s.key, a.service, source);
    match Find(s, a.service)
    case Some(id) =>
      var i := Refresh(s.info[id], a, p, now);
      RecordTimes(env, s, id);
      RefreshTimes(s.info[id], a, p, now);
      TouchKeeps(env, s, id, i);
      if !i.inTried && i.refCount != NEW_BUCKETS_PER_ADDRESS {
        AddKnownKeeps(env, s, id, i, slot, now);
      }
    case None =>
      if IsRoutable(env, a.service.ip) {
        AddUnknownKeeps(env, s, a, source, Max(0, At(Create(env, s, a, source), s.idCount).addr.time - p), slot, now);
      }
  }

  lemma RefreshTimes(i: AddrInfo, a: Address, penalty: int, now: int)
    requires TimeOk(i)
    ensures TimeOk(Refresh(i, a, penalty, now)) && SameIndexing(Refresh(i, a, penalty, now), i)
  {
  }

  lemma {:induction false} AddKeeps(env: Env, s: State, items: seq<AddItem>, source: NetAddr, penalty: int)
    requires Valid(env, s)
    ensures Valid(env, Add(env, s, items, source, penalty).0)
    ensures Evolves(env, s, Add(env, s, items, source, penalty).0, {})
    decreases |items|
  {
    hide Valid, AddSingle, Evolves;
    if items == [] {
      ReflEvolves(env, s);
    } else {
      var n := |items| - 1;
      AddKeeps(env, s, items[..n], source, penalty);
      var t := Add(env, s, items[..n], source, penalty).0;
      AddSingleKeeps(env, t, items[n].address, source, penalty, items[n].now, items[n].lucky);
      var u := AddSingle(env, t, items[n].address, source, penalty, items[n].now, items[n].lucky).0;
      EvolvesTrans(env, s, t, u, {}, {});
      assert {} + {} == (var none: set<int> := {}; none);
      assert Add(env, s, items, source, penalty).0 == u;
    }
  }

  // ----- Good -----

  lemma LastGoodKeeps(env: Env, s: State, time: int)
    requires Valid(env, s)
    ensures Valid(env, s.(lastGood := time)) && Evolves(env, s, s.(lastGood := time), {})
  {
  }

  lemma CollisionsSettle(env: Env, s: State, id: int)
    requires CollisionsOk(env, s, {id}) && id !in s.collisions
    ensures CollisionsOk(env, s, {})
  {
  }

  /** A live entry whose tried slot is free is not waiting in the collision set. */
  lemma FreeSlotNoCollision(env: Env, s: State, id: int)
    requires CollisionsOk(env, s, {}) && id in s.info && TriedSlotOf(env, s, id) !in s.triedTab
    ensures id !in s.collisions
  {
  }

  lemma RecordCollision(env: Env, s: State, id: int)
    requires Valid(env, s) && id in s.info && !s.info[id].inTried && TriedSlotOf(env, s, id) in s.triedTab
    requires 0 <= id < s.idCount && |s.collisions| < SET_TRIED_COLLISION_SIZE
    ensures Valid(env, s.(collisions := s.collisions + {id})) &&
            Evolves(env, s, s.(collisions := s.collisions + {id}), {})
  {
    hide Inv, TriedSlot, IsRoutable;
    CollisionsApart(env, s, s.collisions + {id});
  }

  /** The cross-index invariant does not look at the collision set. */
  lemma CollisionsApart(env: Env, s: State, collisions: set<int>)
    requires Consistent(env, s)
    ensures Consistent(env, s.(collisions := collisions))
  {
    hide IdsOk, AddrOk, RandomOk, TriedOk, NewOk, RefsOk, FloatingOk, CountsOk;
  }

  lemma OrderOk(env: Env, s: State, floating: set<int>, loose: set<int>)
    requires Inv(env, s, floating, loose)
    ensures RandomOk(s.info, s.random)
  {
  }

  lemma LiveIdIn(env: Env, s: State, floating: set<int>, loose: set<int>, id: int)
    requires Inv(env, s, floating, loose) && id in s.info
    ensures 0 <= id < s.idCount
  {
  }

  lemma SettledHasSlot(env: Env, s: State, id: int)
    requires Consistent(env, s) && id in s.info
    ensures !s.info[id].inTried ==> s.info[id].refCount > 0
  {
  }

  /** The part of Good_ after the record has been updated. */
  lemma PromoteKeeps(env: Env, s: State, id: int)
    requires Valid(env, s) && id in s.info && !s.info[id].inTried && s.info[id].lastSuccess != 0
    ensures var t := MakeTried(env, s, id);
            && Consistent(env, t) && CollisionsOk(env, t, {id}) && Evolves(env, s, t, {id})
            && (TriedSlotOf(env, s, id) !in s.triedTab ==> Valid(env, t))
  {
    hide Inv, CollisionsOk, MakeTried, TriedSlot;
    var t := MakeTried(env, s, id);
    MakeTriedKeeps(env, s, id);
    CollisionsEvolve(env, s, t, {id});
    if TriedSlotOf(env, s, id) !in s.triedTab {
      FreeSlotNoCollision(env, s, id);
      CollisionsSettle(env, t, id);
    }
  }

  lemma GoodKeeps(env: Env, s: State, a: Service, test: bool, time: int)
    requires Valid(env, s) && time > 0
    ensures var t := Good(env, s, a, test, time).0;
            && Consistent(env, t)
            && (test || Find(s, a) == None ==> Valid(env, t) )
            && (Find(s, a).Some? ==> CollisionsOk(env, t, {Find(s, a).value}) && Evolves(env, s, t, {Find(s, a).value}))
            && (Find(s, a) == None ==> Evolves(env, s, t, {}))
  {
    hide Inv, CollisionsOk, MakeTried, TriedSlot, Evolves;
    var s1 := s.(lastGood := time);
    LastGoodKeeps(env, s, time);
    FindFacts(env, s1, a, {}, {});
    assert Find(s1, a) == Find(s, a);
    if Find(s, a).Some? {
      var id := Find(s, a).value;
      var i := s1.info[id].(lastSuccess := time, lastTry := time, attempts := 0);
      var t := SetInfo(s1, id, i);
      TouchKeeps(env, s1, id, i);
      EvolvesTrans(env, s, s1, t, {}, {});
      CollisionsWeaken(env, t, id);
      EvolvesWeaken(env, s, t, id);
      LiveIdIn(env, t, {}, {}, id);
      if !i.inTried && i.refCount > 0 {
        if test && TriedSlotOf(env, t, id) in t.triedTab {
          if |t.collisions| < SET_TRIED_COLLISION_SIZE {
            RecordCollision(env, t, id);
            var u := t.(collisions := t.collisions + {id});
            EvolvesTrans(env, s, t, u, {}, {});
            CollisionsWeaken(env, u, id);
            EvolvesWeaken(env, s, u, id);
          }
        } else {
          PromoteKeeps(env, t, id);
          EvolvesTrans(env, s, t, MakeTried(env, t, id), {}, {id});
          assert {} + {id} == {id};
        }
      }
    }
  }

  lemma CollisionsWeaken(env: Env, s: State, id: int)
    requires CollisionsOk(env, s, {})
    ensures CollisionsOk(env, s, {id})
  {
  }

  lemma EvolvesWeaken(env: Env, s: State, t: State, id: int)
    requires Evolves(env, s, t, {})
    ensures Evolves(env, s, t, {id})
  {
  }

  // ----- ResolveCollisions, SelectTriedCollision, GetAddr -----

  lemma DropCollisionKeeps(env: Env, s: State, id: int)
    requires Consistent(env, s) && CollisionsOk(env, s, {id})
    ensures Valid(env, s.(collisions := s.collisions - {id}))
  {
    SubsetCardinality(s.collisions - {id}, s.collisions);
  }

  lemma DropCollisionEvolves(env: Env, s: State, t: State, id: int)
    requires Evolves(env, s, t, {id})
    ensures Evolves(env, s, t.(collisions := t.collisions - {id}), {id})
  {
  }

  lemma ResolveOneKeeps(env: Env, s: State, id: int, now: int)
    requires Valid(env, s) && now > 0
    ensures Valid(env, ResolveOne(env, s, id, now)) && Evolves(env, s, ResolveOne(env, s, id, now), {id})
  {
    hide Inv, CollisionsOk, Judge, Good, Evolves;
    ReflEvolves(env, s);
    EvolvesWeaken(env, s, s, id);
    CollisionsWeaken(env, s, id);
    DropCollisionKeeps(env, s, id);
    DropCollisionEvolves(env, s, s, id);
    if Judge(env, s, id, now).Replace? {
      var a := At(s, id).addr.service;
      var t := Good(env, s, a, false, now).0;
      JudgedIsFound(env, s, id, now);
      GoodKeeps(env, s, a, false, now);
      DropCollisionKeeps(env, t, id);
      DropCollisionEvolves(env, s, t, id);
    }
  }

  lemma JudgedIsFound(env: Env, s: State, id: int, now: int)
    requires Consistent(env, s) && Judge(env, s, id, now).Replace?
    ensures Find(s, At(s, id).addr.service) == Some(id)
  {
  }

  function VisitIds(visits: seq<Visit>): set<int> { set k | 0 <= k < |visits| :: visits[k].id }

  lemma {:induction false} ResolveKeeps(env: Env, s: State, visits: seq<Visit>)
    requires Valid(env, s) && forall k | 0 <= k < |visits| :: visits[k].now > 0
    ensures Valid(env, Resolve(env, s, visits)) && Evolves(env, s, Resolve(env, s, visits), VisitIds(visits))
    decreases |visits|
  {
    hide Valid, ResolveOne, Evolves;
    if visits == [] {
      ReflEvolves(env, s);
      assert VisitIds(visits) == {};
    } else {
      var n := |visits| - 1;
      ResolveKeeps(env, s, visits[..n]);
      var t := Resolve(env, s, visits[..n]);
      ResolveOneKeeps(env, t, visits[n].id, visits[n].now);
      EvolvesTrans(env, s, t, ResolveOne(env, t, visits[n].id, visits[n].now), VisitIds(visits[..n]), {visits[n].id});
      assert VisitIds(visits) == VisitIds(visits[..n]) + {visits[n].id};
    }
  }

  /** SelectTriedCollision_ never looks past the tables: what it returns is a real tried entry. */
  lemma SelectCollisionKeeps(env: Env, s: State, pick: int)
    requires Valid(env, s)
    ensures var (t, r) := SelectCollision(env, s, pick);
            && Valid(env, t) && Evolves(env, s, t, {})
            && (pick in s.collisions && pick in s.info ==>
                  var slot := TriedSlotOf(env, s, pick);
                  && slot in s.triedTab && s.triedTab[slot] in s.info
                  && r == Some(s.info[s.triedTab[slot]]) && r.value.inTried && s.triedTab[slot] != pick)
            && (r.Some? ==> pick in s.collisions && pick in s.info)
            && t == s.(collisions := if pick in s.info then s.collisions else s.collisions - {pick})
  {
    hide Rest, RandomOk, TriedSlot;
    CollisionsWeaken(env, s, pick);
    DropCollisionKeeps(env, s, pick);
    if pick in s.collisions && pick in s.info {
      TriedHolder(env, s, TriedSlotOf(env, s, pick));
    }
  }

  lemma TriedHolder(env: Env, s: State, slot: Slot)
    requires Consistent(env, s) && slot in s.triedTab
    ensures s.triedTab[slot] in s.info && s.info[s.triedTab[slot]].inTried
    ensures slot == TriedSlotOf(env, s, s.triedTab[slot])
  {
  }

  lemma {:induction false} ShuffleKeeps(env: Env, s: State, draws: seq<int>)
    requires Valid(env, s)
    ensures Valid(env, Shuffle(s, draws)) && Evolves(env, s, Shuffle(s, draws), {})
    decreases |draws|
  {
    hide Rest, SwapRandom, CollisionsOk;
    if draws == [] {
    } else {
      var n := |draws| - 1;
      ShuffleKeeps(env, s, draws[..n]);
      var t := Shuffle(s, draws[..n]);
      var u := SwapRandom(t, n, draws[n]);
      if n < |t.random| && 0 <= draws[n] < |t.random| {
        SwapRandomKeeps(env, t, n, draws[n], {}, {});
      } else {
        SwapOutOfRange(t, n, draws[n]);
      }
      SwapRandomEffect(t, n, draws[n]);
      ShrinkEvolves(env, t, u);
      CollisionsEvolve(env, t, u, {});
      EvolvesTrans(env, s, t, u, {}, {});
    }
  }

  lemma SwapOutOfRange(s: State, p: int, q: int)
    requires !(0 <= p < |s.random| && 0 <= q < |s.random|)
    ensures SwapRandom(s, p, q) == s
  {
  }

  /** A fresh manager with a non-null key. */
  lemma InitialValid(env: Env, key: Key)
    requires key != 0
    ensures Valid(env, Initial(key))
  {
    forall net, t ensures Tally(env, map[], {}, t, net) == {} {}
  }
}
