/**
  AddrManImpl as the source writes it: one object whose methods update its
  fields and its two fixed-size tables in place. Each method is proved to do
  what the function of the same name in AddrManSpec says; the internal
  assertions of the source stand at their places and are proved never to fail.
 */
module AddrMan {
  import opened Numbers
  import opened Prelude
  import opened AddrTypes
  import opened AddrManInvariant
  import opened AddrManOps
  import Spec = AddrManSpec

  const EMPTY := -1

  /** The occupied slots of a table. */
  ghost function Table(a: array2<int>): map<Slot, int>
    reads a
  {
    map b, p | 0 <= b < a.Length0 && 0 <= p < a.Length1 && a[b, p] != EMPTY :: Slot(b, p) := a[b, p]
  }

  method Store(a: array2<int>, slot: Slot, id: int)
    requires 0 <= slot.bucket < a.Length0 && 0 <= slot.pos < a.Length1
    modifies a
    ensures Table(a) == if id == EMPTY then old(Table(a)) - {slot} else old(Table(a))[slot := id]
    ensures a[slot.bucket, slot.pos] == id
  {
    a[slot.bucket, slot.pos] := id;
  }

  lemma TableAt(a: array2<int>, slot: Slot)
    requires 0 <= slot.bucket < a.Length0 && 0 <= slot.pos < a.Length1
    ensures slot in Table(a) <==> a[slot.bucket, slot.pos] != EMPTY
    ensures slot in Table(a) ==> Table(a)[slot] == a[slot.bucket, slot.pos]
  {
  }

  class AddrManImpl {
    const env: Env
    var nKey: Key
    var nIdCount: int
    var mapInfo: map<int, AddrInfo>
    var mapAddr: map<Service, int>
    var vRandom: seq<int>
    var nTried: int
    const vvTried: array2<int>
    var nNew: int
    const vvNew: array2<int>
    var mLastGood: int
    var mTriedCollisions: set<int>
    var mNetworkCounts: map<Network, Spec.Count>

    ghost predicate Shape()
    {
      && vvTried.Length0 == TRIED_BUCKET_COUNT && vvTried.Length1 == BUCKET_SIZE
      && vvNew.Length0 == NEW_BUCKET_COUNT && vvNew.Length1 == BUCKET_SIZE
      && vvTried != vvNew
    }

    ghost function Abs(): Spec.State
      reads this, vvTried, vvNew
    {
      Spec.State(nKey, nIdCount, mapInfo, mapAddr, vRandom, nTried, Table(vvTried), nNew, Table(vvNew),
                 mLastGood, mTriedCollisions, mNetworkCounts)
    }

    /** The object invariant: it holds between public calls. */
    ghost predicate Ok()
      reads this, vvTried, vvNew
    {
      Shape() && Valid(env, Abs())
    }

    constructor (env: Env, key: Key)
      requires key != 0
      ensures Ok() && Abs() == Spec.Initial(key) && this.env == env
      ensures fresh(vvTried) && fresh(vvNew)
    {
      this.env := env;
      nKey, nIdCount, mapInfo, mapAddr, vRandom := key, 0, map[], map[], [];
      nTried, nNew, mLastGood, mTriedCollisions, mNetworkCounts := 0, 0, 1, {}, map[];
      vvTried := new int[TRIED_BUCKET_COUNT, BUCKET_SIZE]((b, p) => EMPTY);
      vvNew := new int[NEW_BUCKET_COUNT, BUCKET_SIZE]((b, p) => EMPTY);
      new;
      InitialValid(env, key);
    }

    // ----- internal steps -----

    method Find(a: Service) returns (r: Option<int>)
      ensures r == Spec.Find(Abs(), a)
    {
      if a in mapAddr && mapAddr[a] in mapInfo {
        r := Some(mapAddr[a]);
      } else {
        r := None;
      }
    }

    method AddCount(net: Network, dNew: int, dTried: int)
      requires Spec.CountOf(mNetworkCounts, net).asNew + dNew >= 0
      requires Spec.CountOf(mNetworkCounts, net).asTried + dTried >= 0
      modifies this`mNetworkCounts
      ensures mNetworkCounts == Spec.AddCount(old(mNetworkCounts), net, dNew, dTried)
    {
      var c := if net in mNetworkCounts then mNetworkCounts[net] else Spec.Count(0, 0);
      mNetworkCounts := mNetworkCounts[net := Spec.Count(c.asNew + dNew, c.asTried + dTried)];
    }

    method Create(a: Address, source: NetAddr) returns (id: int)
      requires Shape() && Consistent(env, Abs())
      modifies this
      ensures Abs() == Spec.Create(env, old(Abs()), a, source) && id == old(nIdCount)
    {
      hide Inv, Table, Spec.AddCount, Spec.CountOf, IsRoutable;
      CountsNonNegative(env, Abs(), {}, {}, GetNetwork(env, a.service.ip));
      id := nIdCount;
      nIdCount := nIdCount + 1;
      mapInfo := mapInfo[id := NewAddrInfo(a, source)];
      mapAddr := mapAddr[a.service := id];
      mapInfo := mapInfo[id := mapInfo[id].(randomPos := |vRandom|)];
      vRandom := vRandom + [id];
      nNew := nNew + 1;
      AddCount(GetNetwork(env, a.service.ip), 1, 0);
    }

    method SwapRandom(p: nat, q: nat)
      requires RandomOk(mapInfo, vRandom) && p < |vRandom| && q < |vRandom|
      modifies this`mapInfo, this`vRandom
      ensures Abs() == Spec.SwapRandom(old(Abs()), p, q)
    {
      if p == q { return; }
      assert p < |vRandom| && q < |vRandom|;
      var id1, id2 := vRandom[p], vRandom[q];
      assert id1 in mapInfo;
      assert id2 in mapInfo;
      mapInfo := mapInfo[id1 := mapInfo[id1].(randomPos := q)];
      mapInfo := mapInfo[id2 := mapInfo[id2].(randomPos := p)];
      vRandom := vRandom[p := id2][q := id1];
    }

    method Delete(id: int)
      requires RandomOk(mapInfo, vRandom)
      requires id in mapInfo && !mapInfo[id].inTried && mapInfo[id].refCount == 0
      requires Spec.CountOf(mNetworkCounts, Spec.NetOf(env, mapInfo[id])).asNew > 0
      requires Spec.CountOf(mNetworkCounts, Spec.NetOf(env, mapInfo[id])).asTried >= 0
      modifies this
      ensures Abs() == Spec.Delete(env, old(Abs()), id)
    {
      hide RandomOk, Table, Spec.SwapRandom, Spec.AddCount, Spec.CountOf;
      assert id in mapInfo;
      var info := mapInfo[id];
      assert !info.inTried;
      assert info.refCount == 0;
      SwapToLast(Abs(), id);
      SwapRandom(info.randomPos, |vRandom| - 1);
      AddCount(Spec.NetOf(env, info), -1, 0);
      vRandom := vRandom[..|vRandom| - 1];
      mapAddr := mapAddr - {info.addr.service};
      mapInfo := mapInfo - {id};
      nNew := nNew - 1;
    }

    method ClearNew(slot: Slot, ghost floating: set<int>, ghost loose: set<int>)
      requires Shape() && Inv(env, Abs(), floating, loose) && InNewTable(slot)
      modifies this, vvNew
      ensures Abs() == Spec.ClearNew(env, old(Abs()), slot)
    {
      hide Rest, RandomOk, Table, Spec.Delete;
      ghost var s := Abs();
      TableAt(vvNew, slot);
      if vvNew[slot.bucket, slot.pos] != EMPTY {
        var id := vvNew[slot.bucket, slot.pos];
        ReleaseKeeps(env, s, slot, floating, loose);
        assert id in mapInfo && mapInfo[id].refCount > 0;
        mapInfo := mapInfo[id := mapInfo[id].(refCount := mapInfo[id].refCount - 1)];
        Store(vvNew, slot, EMPTY);
        assert Abs() == Spec.Release(s, slot);
        if mapInfo[id].refCount == 0 {
          NewIsCounted(env, Abs(), floating, loose + {id}, id);
          Delete(id);
        }
      }
    }

    /** The loop that empties the new slots of one entry, starting at its own bucket and stopping at the last one. */
    method RemoveFromNew(id: int)
      requires Shape() && Consistent(env, Abs()) && id in mapInfo && !mapInfo[id].inTried
      modifies this`mapInfo, vvNew
      ensures mapInfo == old(mapInfo)[id := old(mapInfo[id]).(refCount := 0)]
      ensures Table(vvNew) == Spec.Without(old(Table(vvNew)), id)
    {
      hide Rest, RandomOk, Table, NewBucket, BucketPosition, SlotsOf;
      ghost var info, tab := mapInfo[id], Table(vvNew);
      SlotsAreOwn(env, Abs(), id);
      LiveIdIn(env, Abs(), {}, {}, id);
      var start := NewBucket(env, nKey, mapInfo[id].addr.service, mapInfo[id].source);
      var n := 0;
      RemainingAtStart(tab, id, start);
      while n < NEW_BUCKET_COUNT
        invariant 0 <= n <= NEW_BUCKET_COUNT
        invariant mapInfo == old(mapInfo)[id := info.(refCount := |SlotsOf(Table(vvNew), id)|)]
        invariant Table(vvNew) == Remaining(tab, id, start, n)
      {
        var bucket := (start + n) % NEW_BUCKET_COUNT;
        var pos := BucketPosition(env, nKey, true, bucket, mapInfo[id].addr.service);
        ghost var before := Table(vvNew);
        TableAt(vvNew, Slot(bucket, pos));
        RemainingStep(env, nKey, info.addr.service, tab, id, start, n);
        if vvNew[bucket, pos] == id {
          Store(vvNew, Slot(bucket, pos), EMPTY);
          SlotsRemove(before, Slot(bucket, pos), id);
          mapInfo := mapInfo[id := mapInfo[id].(refCount := mapInfo[id].refCount - 1)];
          if mapInfo[id].refCount == 0 {
            NoneRemain(tab, id, start, n + 1);
            return;
          }
        }
        n := n + 1;
      }
      AllVisited(tab, id, start);
    }

    /** First part: the entry leaves the new table. */
    method LeaveNew(id: int)
      requires Shape() && Consistent(env, Abs()) && id in mapInfo && !mapInfo[id].inTried
      modifies this, vvNew
      ensures Abs() == Spec.LeaveNew(env, old(Abs()), id)
    {
      hide Rest, RandomOk, Table, Spec.AddCount, Spec.Without;
      NewIsCounted(env, Abs(), {}, {}, id);
      RemoveFromNew(id);
      nNew := nNew - 1;
      AddCount(Spec.NetOf(env, mapInfo[id]), -1, 0);
      assert mapInfo[id].refCount == 0;
    }

    /** Second part: whoever holds the tried slot is moved back to its new bucket. */
    method Evict(slot: Slot, ghost id: int)
      requires Shape() && Inv(env, Abs(), {id}, {}) && InTriedTable(slot)
      modifies this, vvNew, vvTried
      ensures Abs() == Spec.Evict(env, old(Abs()), slot)
    {
      hide Inv, Table, Spec.LeaveTried, Spec.Rehome;
      TableAt(vvTried, slot);
      if vvTried[slot.bucket, slot.pos] != EMPTY {
        var idEvict := vvTried[slot.bucket, slot.pos];
        LeaveTriedKeeps(env, Abs(), slot, {id});
        LeaveTriedEffect(env, Abs(), slot);
        assert idEvict in mapInfo;
        LeaveTried(slot, idEvict, {id});
        Rehome(idEvict, {id} + {idEvict});
      }
    }

    method LeaveTried(slot: Slot, id: int, ghost floating: set<int>)
      requires Shape() && Inv(env, Abs(), floating, {}) && InTriedTable(slot)
      requires slot in Table(vvTried) && Table(vvTried)[slot] == id && id in mapInfo && mapInfo[id].inTried
      modifies this, vvTried
      ensures Abs() == Spec.LeaveTried(env, old(Abs()), slot)
    {
      hide Inv, Table, Spec.AddCount;
      TriedIsCounted(env, Abs(), floating, {}, id);
      mapInfo := mapInfo[id := mapInfo[id].(inTried := false)];
      Store(vvTried, slot, EMPTY);
      nTried := nTried - 1;
      AddCount(Spec.NetOf(env, mapInfo[id]), 0, -1);
    }

    method Rehome(id: int, ghost floating: set<int>)
      requires Shape() && Inv(env, Abs(), floating, {}) && id in floating && id in mapInfo && mapInfo[id].refCount == 0
      modifies this, vvNew
      ensures Abs() == Spec.Rehome(env, old(Abs()), id)
    {
      hide Inv, Table, Spec.AddCount, Spec.ClearNew, NewBucket, SlotInBucket;
      var bucket := NewBucket(env, nKey, mapInfo[id].addr.service, mapInfo[id].source);
      var home := SlotInBucket(env, nKey, mapInfo[id].addr.service, bucket);
      ghost var s := Abs();
      FloatingIsNew(env, s, floating, {}, id);
      LiveIdIn(env, s, floating, {}, id);
      ClearNewEffect(env, s, home, floating, {});
      ClearNewKeeps(env, s, home, floating, {});
      ClearNew(home, floating, {});
      TableAt(vvNew, home);
      assert vvNew[home.bucket, home.pos] == EMPTY;
      assert SameButPlace(mapInfo[id], s.info[id]);
      CountsNonNegative(env, Abs(), floating, {}, Spec.NetOf(env, mapInfo[id]));
      mapInfo := mapInfo[id := mapInfo[id].(refCount := 1)];
      Store(vvNew, home, id);
      nNew := nNew + 1;
      AddCount(Spec.NetOf(env, mapInfo[id]), 1, 0);
    }

    /** Moves an entry from the new table to the tried table. */
    method MakeTried(id: int)
      requires Shape() && Consistent(env, Abs()) && id in mapInfo && !mapInfo[id].inTried
      modifies this, vvNew, vvTried
      ensures Abs() == Spec.MakeTried(env, old(Abs()), id)
    {
      hide Inv, Table, Spec.LeaveNew, Spec.Evict, Spec.AddCount, TriedBucket, BucketPosition;
      ghost var s := Abs();
      LeaveNewKeeps(env, s, id);
      LeaveNewEffect(env, s, id);
      LeaveNew(id);
      ghost var t := Abs();
      var bucket := TriedBucket(env, nKey, mapInfo[id].addr.service);
      var slot := Slot(bucket, BucketPosition(env, nKey, false, bucket, mapInfo[id].addr.service));
      EvictKeeps(env, t, slot, id);
      EvictEffect(env, t, slot, id);
      Evict(slot, id);
      TableAt(vvTried, slot);
      assert vvTried[slot.bucket, slot.pos] == EMPTY;
      LiveIdIn(env, Abs(), {id}, {}, id);
      CountsNonNegative(env, Abs(), {id}, {}, Spec.NetOf(env, mapInfo[id]));
      Store(vvTried, slot, id);
      nTried := nTried + 1;
      mapInfo := mapInfo[id := mapInfo[id].(inTried := true)];
      AddCount(Spec.NetOf(env, mapInfo[id]), 0, 1);
    }

    // ----- public operations -----

    /** Gives the entry a slot of the new table, or deletes it if it has none and gets none. */
    method Claim(id: int, slot: Slot, now: int, ghost loose: set<int>) returns (inserted: bool)
      requires Shape() && Inv(env, Abs(), {}, loose) && loose <= {id} && InNewTable(slot)
      requires id in mapInfo && !mapInfo[id].inTried
      modifies this, vvNew
      ensures (Abs(), inserted) == Spec.Claim(env, old(Abs()), id, slot, now)
    {
      hide Inv, Table, Spec.ClearNew, Spec.Delete, IsTerrible;
      ghost var s := Abs();
      LiveIdIn(env, s, {}, loose, id);
      TableAt(vvNew, slot);
      inserted := vvNew[slot.bucket, slot.pos] == EMPTY;
      if vvNew[slot.bucket, slot.pos] != id {
        if !inserted {
          HeldMeansReferenced(env, s, slot, {}, loose);
          var existing := mapInfo[vvNew[slot.bucket, slot.pos]];
          if IsTerrible(existing, now) || (existing.refCount > 1 && mapInfo[id].refCount == 0) {
            inserted := true;
          }
        }
        if inserted {
          ClearNewEffect(env, s, slot, {}, loose);
          ClearNew(slot, {}, loose);
          mapInfo := mapInfo[id := mapInfo[id].(refCount := mapInfo[id].refCount + 1)];
          Store(vvNew, slot, id);
          EmptySlotNoop(env, s, slot);
        } else if mapInfo[id].refCount == 0 {
          NewIsCounted(env, s, {}, loose, id);
          OrderOk(env, s, {}, loose);
          Delete(id);
        }
      }
    }

    method AddSingle(a: Address, source: NetAddr, timePenalty: int, now: int, lucky: bool) returns (added: bool)
      requires Ok()
      modifies this, vvNew
      ensures Ok() && (Abs(), added) == Spec.AddSingle(env, old(Abs()), a, source, timePenalty, now, lucky)
    {
      hide Inv, CollisionsOk, Table, Spec.Claim, Spec.Create, NewSlot, IsRoutable;
      ghost var s := Abs();
      AddSingleKeeps(env, s, a, source, timePenalty, now, lucky);
      if !IsRoutable(env, a.service.ip) { return false; }
      var found := Find(a.service);
      FindFacts(env, s, a.service, {}, {});
      var penalty := if a.service.ip == source then 0 else timePenalty;
      var slot := NewSlot(env, nKey, a.service, source);
      match found
      case Some(id) =>
        var i := Spec.Refresh(mapInfo[id], a, penalty, now);
        RecordTimes(env, s, id);
        RefreshTimes(s.info[id], a, penalty, now);
        SetInfoKeeps(env, s, id, i, {}, {});
        mapInfo := mapInfo[id := i];
        if a.time <= i.addr.time { return false; }
        if i.inTried { return false; }
        if i.refCount == NEW_BUCKETS_PER_ADDRESS { return false; }
        if i.refCount > 0 && !lucky { return false; }
        added := Claim(id, slot, now, {});
      case None =>
        CreateKeeps(env, s, a, source);
        var id := Create(a, source);
        CreateRecord(env, s, a, source);
        ghost var t := Abs();
        var i := mapInfo[id].(addr := mapInfo[id].addr.(time := Max(0, mapInfo[id].addr.time - penalty)));
        SetInfoKeeps(env, t, id, i, {}, {id});
        mapInfo := mapInfo[id := i];
        added := Claim(id, slot, now, {id});
    }

    method Add(items: seq<Spec.AddItem>, source: NetAddr, timePenalty: int) returns (anyAdded: bool)
      requires Ok()
      modifies this, vvNew
      ensures Ok() && (Abs(), anyAdded) == Spec.Add(env, old(Abs()), items, source, timePenalty)
    {
      hide Valid, Table, Spec.AddSingle;
      var added, n := 0, 0;
      ghost var s := Abs();
      while n < |items|
        invariant 0 <= n <= |items| && added >= 0
        invariant Ok()
        invariant (Abs(), added > 0) == Spec.Add(env, s, items[..n], source, timePenalty)
      {
        assert items[..n + 1][..n] == items[..n];
        var one := AddSingle(items[n].address, source, timePenalty, items[n].now, items[n].lucky);
        added := added + if one then 1 else 0;
        n := n + 1;
      }
      assert items[..n] == items;
      anyAdded := added > 0;
    }

    method Good(a: Service, testBeforeEvict: bool, time: int) returns (moved: bool)
      requires Ok() && time > 0
      modifies this, vvNew, vvTried
      ensures Shape() && (Abs(), moved) == Spec.Good(env, old(Abs()), a, testBeforeEvict, time)
      ensures Consistent(env, Abs()) && (testBeforeEvict ==> Ok())
    {
      hide Inv, CollisionsOk, Table, Spec.MakeTried, TriedBucket, BucketPosition;
      ghost var s := Abs();
      GoodKeeps(env, s, a, testBeforeEvict, time);
      mLastGood := time;
      ghost var s1 := Abs();
      LastGoodKeeps(env, s, time);
      FindFacts(env, s1, a, {}, {});
      var found := Find(a);
      if found.None? { return false; }
      var id := found.value;
      var i := mapInfo[id].(lastSuccess := time, lastTry := time, attempts := 0);
      SetInfoKeeps(env, s1, id, i, {}, {});
      mapInfo := mapInfo[id := i];
      if i.inTried { return false; }
      if i.refCount <= 0 { return false; }
      var bucket := TriedBucket(env, nKey, i.addr.service);
      var slot := Slot(bucket, BucketPosition(env, nKey, false, bucket, i.addr.service));
      TableAt(vvTried, slot);
      if testBeforeEvict && vvTried[slot.bucket, slot.pos] != EMPTY {
        if |mTriedCollisions| < SET_TRIED_COLLISION_SIZE {
          mTriedCollisions := mTriedCollisions + {id};
        }
        return false;
      } else {
        MakeTried(id);
        return true;
      }
    }

    method Attempt(a: Service, countFailure: bool, time: int)
      requires Ok() && time >= 0
      modifies this`mapInfo
      ensures Ok() && Abs() == Spec.Attempt(old(Abs()), a, countFailure, time)
    {
      hide Valid, Table;
      AttemptKeeps(env, Abs(), a, countFailure, time);
      var found := Find(a);
      if found.None? { return; }
      var id := found.value;
      mapInfo := mapInfo[id := mapInfo[id].(lastTry := time)];
      if countFailure && mapInfo[id].lastCountAttempt < mLastGood {
        mapInfo := mapInfo[id := mapInfo[id].(lastCountAttempt := time, attempts := mapInfo[id].attempts + 1)];
      }
      assert mapInfo == old(mapInfo)[id := mapInfo[id]];
    }

    method Connected(a: Service, time: int)
      requires Ok()
      modifies this`mapInfo
      ensures Ok() && Abs() == Spec.Connected(old(Abs()), a, time)
    {
      hide Valid, Table;
      ConnectedKeeps(env, Abs(), a, time);
      var found := Find(a);
      if found.None? { return; }
      var id := found.value;
      if time - mapInfo[id].addr.time > 20 * MINUTE {
        mapInfo := mapInfo[id := mapInfo[id].(addr := mapInfo[id].addr.(time := time))];
      }
    }

    method SetServices(a: Service, services: bv64)
      requires Ok()
      modifies this`mapInfo
      ensures Ok() && Abs() == Spec.SetServices(old(Abs()), a, services)
    {
      hide Valid, Table;
      SetServicesKeeps(env, Abs(), a, services);
      var found := Find(a);
      if found.None? { return; }
      var id := found.value;
      mapInfo := mapInfo[id := mapInfo[id].(addr := mapInfo[id].addr.(services := services))];
    }

    /** The body of the loop over the collision set. */
    method ResolveOne(idNew: int, now: int)
      requires Ok() && now > 0
      modifies this, vvNew, vvTried
      ensures Ok() && Abs() == Spec.ResolveOne(env, old(Abs()), idNew, now)
    {
      hide Inv, CollisionsOk, Table, Spec.Good, TriedSlot;
      ghost var s := Abs();
      ResolveOneKeeps(env, s, idNew, now);
      var erase := false;
      if idNew !in mapInfo {
        erase := true;
      } else {
        var infoNew := mapInfo[idNew];
        var slot := TriedSlot(env, nKey, infoNew.addr.service);
        TableAt(vvTried, slot);
        if !env.valid(infoNew.addr.service.ip) {
          erase := true;
        } else if vvTried[slot.bucket, slot.pos] != EMPTY {
          var idOld := vvTried[slot.bucket, slot.pos];
          TriedHolder(env, s, slot);
          var infoOld := mapInfo[idOld];
          if now - infoOld.lastSuccess < REPLACEMENT {
            erase := true;
          } else if now - infoOld.lastTry < REPLACEMENT {
            if now - infoOld.lastTry > 60 {
              var _ := Good(infoNew.addr.service, false, now);
              erase := true;
            }
          } else if now - infoNew.lastSuccess > TEST_WINDOW {
            var _ := Good(infoNew.addr.service, false, now);
            erase := true;
          }
        } else {
          var _ := Good(infoNew.addr.service, false, now);
          erase := true;
        }
      }
      if erase {
        mTriedCollisions := mTriedCollisions - {idNew};
      }
    }

    /** `clock(id)` is the time read while the collision of id is handled. */
    method ResolveCollisions(clock: int -> int) returns (ghost visits: seq<Spec.Visit>)
      requires Ok() && forall id :: clock(id) > 0
      modifies this, vvNew, vvTried
      ensures Ok() && Abs() == Spec.Resolve(env, old(Abs()), visits)
      ensures VisitIds(visits) == old(mTriedCollisions)
      ensures Ascending(visits, {}, clock)
    {
      hide Valid, Table, Spec.ResolveOne, Ascending, VisitIds;
      var todo := mTriedCollisions;
      ghost var s := Abs();
      visits := [];
      assert Ascending(visits, todo, clock) && VisitIds(visits) == {} by { NothingVisited(todo, clock); }
      while todo != {}
        invariant Ok() && Abs() == Spec.Resolve(env, s, visits)
        invariant VisitIds(visits) + todo == old(mTriedCollisions)
        invariant Ascending(visits, todo, clock)
        decreases |todo|
      {
        var id := Least(todo);
        AscendingSnoc(visits, todo, clock, id);
        todo := todo - {id};
        ResolveOne(id, clock(id));
        ghost var next := visits + [Spec.Visit(id, clock(id))];
        assert next[..|visits|] == visits;
        VisitIdsSnoc(visits, Spec.Visit(id, clock(id)));
        visits := next;
      }
    }

    /** `pick` is the randomly chosen member of the collision set. */
    method SelectTriedCollision(pick: int) returns (r: Option<AddrInfo>)
      requires Ok() && (mTriedCollisions != {} ==> pick in mTriedCollisions)
      modifies this`mTriedCollisions
      ensures Ok() && (Abs(), r) == Spec.SelectCollision(env, old(Abs()), pick)
      ensures r.Some? ==> r.value.inTried
    {
      hide Inv, CollisionsOk, Table, TriedSlot;
      SelectCollisionKeeps(env, Abs(), pick);
      if |mTriedCollisions| == 0 { return None; }
      if pick !in mapInfo {
        mTriedCollisions := mTriedCollisions - {pick};
        return None;
      }
      var slot := TriedSlot(env, nKey, mapInfo[pick].addr.service);
      TableAt(vvTried, slot);
      assert vvTried[slot.bucket, slot.pos] != EMPTY;
      assert vvTried[slot.bucket, slot.pos] in mapInfo;
      return Some(mapInfo[vvTried[slot.bucket, slot.pos]]);
    }

    /**
      `rand(n)` is the n-th random number. The answer lists wanted entries, each
      once and never more than the limit; if it stays below the limit, no wanted
      entry is missing.
     */
    method GetAddr(maxAddresses: nat, maxPct: nat, network: Option<Network>, filtered: bool, now: int,
                   rand: nat -> nat)
      returns (addresses: seq<Address>, ghost ids: seq<int>, ghost draws: seq<int>)
      requires Ok()
      modifies this`mapInfo, this`vRandom
      ensures Ok() && Abs() == Spec.Shuffle(old(Abs()), draws)
      ensures |ids| == |addresses| <= AddrLimit(|old(vRandom)|, maxAddresses, maxPct)
      ensures forall k | 0 <= k < |ids| ::
                ids[k] in old(mapInfo) && addresses[k] == old(mapInfo)[ids[k]].addr
                && Wanted(env, old(mapInfo)[ids[k]], network, filtered, now)
      ensures Distinct(ids)
      ensures |vRandom| == |old(vRandom)| && DrawnBy(draws, rand, |vRandom|)
      ensures ids == Keep(env, old(mapInfo), vRandom[..|draws|], network, filtered, now)
      ensures |draws| < |vRandom| ==> |ids| == AddrLimit(|vRandom|, maxAddresses, maxPct)
      ensures |ids| < AddrLimit(|old(vRandom)|, maxAddresses, maxPct) ==>
                forall id | id in old(mapInfo) && Wanted(env, old(mapInfo)[id], network, filtered, now) :: id in ids
    {
      hide Valid, Table, Spec.Shuffle, IsTerrible, GetNetClass, SamePeople, SameButPlace, Keep, Distinct, AddrLimit,
           DrawnBy;
      ghost var s := Abs();
      var nNodes := AddrLimit(|vRandom|, maxAddresses, maxPct);
      addresses, ids, draws := [], [], [];
      var n := 0;
      NothingKept(env, s, network, filtered, now);
      NothingDrawn(rand, |vRandom|);
      assert vRandom[..0] == [];
      while n < |vRandom| && |addresses| < nNodes
        invariant 0 <= n <= |vRandom| == |s.random| && |draws| == n && |ids| == |addresses| <= nNodes
        invariant Ok() && Abs() == Spec.Shuffle(s, draws) && SamePeople(s.info, mapInfo)
        invariant DrawnBy(draws, rand, |s.random|)
        invariant ids == Keep(env, s.info, vRandom[..n], network, filtered, now)
        invariant forall k | 0 <= k < |ids| :: ids[k] in s.info && addresses[k] == s.info[ids[k]].addr
      {
        var pos := rand(n) % (|vRandom| - n) + n;
        ghost var prefix := vRandom[..n];
        var id, ai := DrawNext(n, pos, s, draws);
        DrawnMore(draws, rand, |vRandom|, pos);
        draws := draws + [pos];
        KeepSnoc(env, s.info, prefix, id, network, filtered, now);
        WantedIgnoresPlace(env, ai, s.info[id], network, filtered, now);
        n := n + 1;
        if network.Some? && GetNetClass(env, ai.addr.service.ip) != network.value { continue; }
        if IsTerrible(ai, now) && filtered { continue; }
        addresses := addresses + [ai.addr];
        ids := ids + [id];
      }
      EveryoneDrawn(env, s, Abs(), n, network, filtered, now);
    }

    /** Moves a randomly chosen remaining entry to position n and looks it up. */
    method DrawNext(n: nat, pos: nat, ghost s: Spec.State, ghost draws: seq<int>) returns (id: int, ai: AddrInfo)
      requires Ok() && Valid(env, s) && n <= pos < |vRandom| && |draws| == n
      requires Abs() == Spec.Shuffle(s, draws) && SamePeople(s.info, mapInfo)
      modifies this`mapInfo, this`vRandom
      ensures Ok() && Abs() == Spec.Shuffle(s, draws + [pos]) && SamePeople(s.info, mapInfo)
      ensures |vRandom| == |old(vRandom)| && vRandom[..n + 1] == old(vRandom)[..n] + [id]
      ensures id in s.info && SameButPlace(ai, s.info[id])
    {
      hide Valid, Table, Spec.Shuffle, Spec.SwapRandom, SamePeople, SameButPlace;
      ghost var t := Abs();
      DrawnNext(env, s, t, draws, pos);
      SwapRandom(n, pos);
      id := vRandom[n];
      ai := mapInfo[id];
      assert vRandom[..n + 1] == vRandom[..n] + [id];
    }
  }

  // ----- GetAddr -----

  /** Each round draws one of the places from its own on. */
  ghost predicate DrawnBy(draws: seq<int>, rand: nat -> nat, size: nat) {
    |draws| <= size && forall k | 0 <= k < |draws| :: draws[k] == rand(k) % (size - k) + k
  }

  lemma NothingDrawn(rand: nat -> nat, size: nat)
    ensures DrawnBy([], rand, size)
  {
  }

  lemma DrawnMore(draws: seq<int>, rand: nat -> nat, size: nat, pos: int)
    requires DrawnBy(draws, rand, size) && |draws| < size && pos == rand(|draws|) % (size - |draws|) + |draws|
    ensures DrawnBy(draws + [pos], rand, size)
  {
  }

  function AddrLimit(size: nat, maxAddresses: nat, maxPct: nat): nat {
    var share := if maxPct != 0 then Min(maxPct, 100) * size / 100 else size;
    if maxAddresses != 0 then Min(share, maxAddresses) else share
  }

  /** The limit is the largest number within the size, the percentage of it and the maximum, where those are given. */
  lemma AddrLimitIs(size: nat, maxAddresses: nat, maxPct: nat, k: nat)
    ensures k <= AddrLimit(size, maxAddresses, maxPct) <==>
            && k <= size && (maxPct != 0 ==> 100 * k <= maxPct * size) && (maxAddresses != 0 ==> k <= maxAddresses)
  {
    if maxPct != 0 {
      var pct := Min(maxPct, 100);
      AtMostQuotient(pct * size, 100, k);
      MulOrder(pct, 100, size);
      MulOrder(pct, maxPct, size);
      if maxPct > 100 { MulOrder(100, maxPct, size); }
    }
  }

  predicate Wanted(env: Env, i: AddrInfo, network: Option<Network>, filtered: bool, now: int) {
    && (network.None? || GetNetClass(env, i.addr.service.ip) == network.value)
    && !(filtered && IsTerrible(i, now))
  }

  ghost predicate SamePeople(info: InfoMap, info': InfoMap) {
    info.Keys == info'.Keys && forall id | id in info :: SameButPlace(info'[id], info[id])
  }

  /** The wanted entries of a list, in order. */
  function Keep(env: Env, info: InfoMap, order: seq<int>, network: Option<Network>, filtered: bool, now: int): seq<int>
    decreases |order|
  {
    if order == [] then []
    else
      var n := |order| - 1;
      var before := Keep(env, info, order[..n], network, filtered, now);
      if order[n] in info && Wanted(env, info[order[n]], network, filtered, now) then before + [order[n]] else before
  }

  lemma KeepSnoc(env: Env, info: InfoMap, order: seq<int>, id: int, network: Option<Network>, filtered: bool, now: int)
    ensures Keep(env, info, order + [id], network, filtered, now) ==
            Keep(env, info, order, network, filtered, now) +
            (if id in info && Wanted(env, info[id], network, filtered, now) then [id] else [])
  {
    assert (order + [id])[..|order|] == order;
  }

  /** Every kept id stands somewhere in the list, and is live and wanted. */
  lemma {:induction false} KeepAt(env: Env, info: InfoMap, order: seq<int>, network: Option<Network>,
                                  filtered: bool, now: int, k: nat) returns (j: nat)
    requires k < |Keep(env, info, order, network, filtered, now)|
    ensures var kept := Keep(env, info, order, network, filtered, now);
            && j < |order| && order[j] == kept[k]
            && kept[k] in info && Wanted(env, info[kept[k]], network, filtered, now)
    decreases |order|
  {
    hide Wanted;
    var n := |order| - 1;
    var before := Keep(env, info, order[..n], network, filtered, now);
    if k < |before| {
      j := KeepAt(env, info, order[..n], network, filtered, now, k);
    } else {
      j := n;
    }
  }

  /** Every live and wanted id of the list is kept. */
  lemma {:induction false} KeepHas(env: Env, info: InfoMap, order: seq<int>, network: Option<Network>,
                                   filtered: bool, now: int, j: nat) returns (k: nat)
    requires j < |order| && order[j] in info && Wanted(env, info[order[j]], network, filtered, now)
    ensures var kept := Keep(env, info, order, network, filtered, now); k < |kept| && kept[k] == order[j]
    decreases |order|
  {
    hide Wanted;
    var n := |order| - 1;
    if j < n {
      k := KeepHas(env, info, order[..n], network, filtered, now, j);
    } else {
      k := |Keep(env, info, order[..n], network, filtered, now)|;
    }
  }

  lemma {:induction false} KeepDistinct(env: Env, info: InfoMap, order: seq<int>, network: Option<Network>,
                                        filtered: bool, now: int)
    requires Distinct(order)
    ensures Distinct(Keep(env, info, order, network, filtered, now))
    decreases |order|
  {
    hide Wanted;
    if order != [] {
      var n := |order| - 1;
      KeepDistinct(env, info, order[..n], network, filtered, now);
      var before := Keep(env, info, order[..n], network, filtered, now);
      forall k | 0 <= k < |before| ensures before[k] != order[n] {
        var j := KeepAt(env, info, order[..n], network, filtered, now, k);
      }
    }
  }

  lemma NothingKept(env: Env, s: Spec.State, network: Option<Network>, filtered: bool, now: int)
    ensures Keep(env, s.info, [], network, filtered, now) == [] && Spec.Shuffle(s, []) == s &&
            SamePeople(s.info, s.info)
  {
  }

  lemma WantedIgnoresPlace(env: Env, i: AddrInfo, j: AddrInfo, network: Option<Network>, filtered: bool, now: int)
    requires SameButPlace(i, j)
    ensures i.addr == j.addr
    ensures Wanted(env, i, network, filtered, now) == Wanted(env, j, network, filtered, now)
  {
  }

  lemma EveryoneDrawn(
    env: Env, s: Spec.State, t: Spec.State, n: nat, network: Option<Network>, filtered: bool, now: int)
    requires Valid(env, t) && SamePeople(s.info, t.info) && n <= |t.random|
    ensures var kept := Keep(env, s.info, t.random[..n], network, filtered, now);
            && Distinct(kept)
            && (forall k | 0 <= k < |kept| :: kept[k] in s.info && Wanted(env, s.info[kept[k]], network, filtered, now))
            && (n == |t.random| ==>
                  forall id | id in s.info && Wanted(env, s.info[id], network, filtered, now) :: id in kept)
  {
    hide Inv, Wanted, Keep;
    RandomListsLive(env, t);
    var order := t.random[..n];
    var kept := Keep(env, s.info, order, network, filtered, now);
    KeepDistinct(env, s.info, order, network, filtered, now);
    forall k | 0 <= k < |kept|
      ensures kept[k] in s.info && Wanted(env, s.info[kept[k]], network, filtered, now)
    {
      var j := KeepAt(env, s.info, order, network, filtered, now, k);
    }
    if n == |t.random| {
      forall id | id in s.info && Wanted(env, s.info[id], network, filtered, now) ensures id in kept {
        var k := KeepHas(env, s.info, order, network, filtered, now, t.info[id].randomPos);
        assert kept[k] == id;
      }
    }
  }

  lemma RandomListsLive(env: Env, s: Spec.State)
    requires Consistent(env, s)
    ensures RandomOk(s.info, s.random) && Distinct(s.random)
    ensures forall id :: id in s.random <==> id in s.info
  {
    forall id | id in s.info ensures id in s.random { assert s.random[s.info[id].randomPos] == id; }
  }

  /** The state after one more draw. */
  lemma DrawnNext(env: Env, s: Spec.State, t: Spec.State, draws: seq<int>, pos: nat)
    requires Valid(env, s) && Valid(env, t) && t == Spec.Shuffle(s, draws) && SamePeople(s.info, t.info)
    requires |draws| <= pos < |t.random|
    ensures RandomOk(t.info, t.random)
    ensures var u, n := Spec.SwapRandom(t, |draws|, pos), |draws|;
            && u == Spec.Shuffle(s, draws + [pos]) && Valid(env, u) && SamePeople(s.info, u.info)
            && |u.random| == |t.random| && u.random[..n] == t.random[..n]
            && u.random[n] in u.info && u.random[n] in s.info && SameButPlace(u.info[u.random[n]], s.info[u.random[n]])
  {
    hide Inv, CollisionsOk, Spec.SwapRandom;
    var next := draws + [pos];
    var u := Spec.SwapRandom(t, |draws|, pos);
    assert next[..|draws|] == draws;
    ShuffleKeeps(env, s, next);
    OrderOk(env, t, {}, {});
    OrderOk(env, u, {}, {});
    SwapRandomEffect(t, |draws|, pos);
    SwapKeepsPrefix(t, |draws|, pos);
    assert SamePeople(s.info, u.info);
    var id := u.random[|draws|];
    assert id in u.info && id in s.info;
  }

  lemma SwapKeepsPrefix(s: Spec.State, n: nat, pos: nat)
    requires n <= pos < |s.random|
    ensures var t := Spec.SwapRandom(s, n, pos);
            |t.random| == |s.random| && t.random[..n] == s.random[..n]
  {
  }

  lemma VisitIdsSnoc(visits: seq<Spec.Visit>, v: Spec.Visit)
    ensures VisitIds(visits + [v]) == VisitIds(visits) + {v.id}
  {
    var next := visits + [v];
    assert next[|visits|] == v;
    forall k | 0 <= k < |visits| ensures next[k] == visits[k] {}
    forall x | x in VisitIds(visits) ensures x in VisitIds(next) {
      var k :| 0 <= k < |visits| && visits[k].id == x;
      assert next[k].id == x;
    }
  }

  /** The visits made so far, in ascending order of id, each at its clock reading; `todo` is still ahead. */
  ghost predicate Ascending(visits: seq<Spec.Visit>, todo: set<int>, clock: int -> int) {
    && (forall k | 0 <= k < |visits| :: visits[k].now == clock(visits[k].id))
    && (forall j, k | 0 <= j < k < |visits| :: visits[j].id < visits[k].id)
    && (forall k, id | 0 <= k < |visits| && id in todo :: visits[k].id < id)
  }

  lemma NothingVisited(todo: set<int>, clock: int -> int)
    ensures Ascending([], todo, clock) && VisitIds([]) == {}
  {
  }

  lemma AscendingSnoc(visits: seq<Spec.Visit>, todo: set<int>, clock: int -> int, id: int)
    requires Ascending(visits, todo, clock) && id in todo && forall j | j in todo :: id <= j
    ensures Ascending(visits + [Spec.Visit(id, clock(id))], todo - {id}, clock)
  {
  }

  lemma EmptySlotNoop(env: Env, s: Spec.State, slot: Slot)
    ensures slot !in s.newTab ==> Spec.ClearNew(env, s, slot) == s
  {
  }

  lemma CreateRecord(env: Env, s: Spec.State, a: Address, source: NetAddr)
    ensures var t := Spec.Create(env, s, a, source);
            && s.idCount in t.info && t.key == s.key
            && t.info[s.idCount] == NewAddrInfo(a, source).(randomPos := |s.random|)
  {
  }

  lemma TriedIsCounted(env: Env, s: Spec.State, floating: set<int>, loose: set<int>, id: int)
    requires Inv(env, s, floating, loose) && id in s.info && s.info[id].inTried
    ensures s.nTried > 0 && Spec.CountOf(s.counts, Spec.NetOf(env, s.info[id])).asTried > 0
    ensures Spec.CountOf(s.counts, Spec.NetOf(env, s.info[id])).asNew >= 0
  {
    assert id in Tally(env, s.info, floating, true, None);
    assert id in Tally(env, s.info, floating, true, Some(Spec.NetOf(env, s.info[id])));
  }

  // ----- the loop of MakeTried -----

  /** The table after n buckets, counted from `start`, have been cleared of id. */
  ghost function Remaining(tab: map<Slot, int>, id: int, start: int, n: int): map<Slot, int> {
    map slot | slot in tab && !(tab[slot] == id && (slot.bucket - start) % NEW_BUCKET_COUNT < n) :: tab[slot]
  }

  ghost predicate OwnSlots(env: Env, key: Key, a: Service, tab: map<Slot, int>, id: int) {
    forall slot | slot in tab && tab[slot] == id ::
      InNewTable(slot) && slot.pos == BucketPosition(env, key, true, slot.bucket, a)
  }

  lemma SlotsAreOwn(env: Env, s: Spec.State, id: int)
    requires Consistent(env, s) && id in s.info
    ensures s.info[id].refCount == |SlotsOf(s.newTab, id)|
    ensures OwnSlots(env, s.key, s.info[id].addr.service, s.newTab, id)
  {
  }

  lemma RemainingAtStart(tab: map<Slot, int>, id: int, start: int)
    ensures Remaining(tab, id, start, 0) == tab
  {
  }

  lemma ModOffset(start: int, n: int, bucket: int)
    requires 0 <= n < NEW_BUCKET_COUNT && 0 <= bucket < NEW_BUCKET_COUNT
    ensures (bucket - start) % NEW_BUCKET_COUNT == n <==> bucket == (start + n) % NEW_BUCKET_COUNT
  {
  }

  lemma RemainingStep(env: Env, key: Key, a: Service, tab: map<Slot, int>, id: int, start: int, n: int)
    requires OwnSlots(env, key, a, tab, id) && 0 <= n < NEW_BUCKET_COUNT
    ensures var slot := Slot((start + n) % NEW_BUCKET_COUNT,
                             BucketPosition(env, key, true, (start + n) % NEW_BUCKET_COUNT, a));
            var now := Remaining(tab, id, start, n);
            && (slot in now && now[slot] == id ==> Remaining(tab, id, start, n + 1) == now - {slot})
            && (!(slot in now && now[slot] == id) ==> Remaining(tab, id, start, n + 1) == now)
  {
    hide BucketPosition;
    forall slot | slot in tab && tab[slot] == id { ModOffset(start, n, slot.bucket); }
  }

  lemma NoneRemain(tab: map<Slot, int>, id: int, start: int, n: int)
    requires |SlotsOf(Remaining(tab, id, start, n), id)| == 0
    ensures Remaining(tab, id, start, n) == Spec.Without(tab, id)
  {
    var r := Remaining(tab, id, start, n);
    assert forall slot | slot in r :: r[slot] == id <==> slot in SlotsOf(r, id);
    assert SlotsOf(r, id) == {};
  }

  lemma AllVisited(tab: map<Slot, int>, id: int, start: int)
    ensures Remaining(tab, id, start, NEW_BUCKET_COUNT) == Spec.Without(tab, id)
    ensures |SlotsOf(Spec.Without(tab, id), id)| == 0
  {
    assert SlotsOf(Spec.Without(tab, id), id) == {};
  }

  lemma NewIsCounted(env: Env, s: Spec.State, floating: set<int>, loose: set<int>, id: int)
    requires Inv(env, s, floating, loose) && id in s.info && id !in floating && !s.info[id].inTried
    ensures s.nNew > 0 && Spec.CountOf(s.counts, Spec.NetOf(env, s.info[id])).asNew > 0
    ensures Spec.CountOf(s.counts, Spec.NetOf(env, s.info[id])).asTried >= 0
  {
    assert id in Tally(env, s.info, floating, false, None);
    assert id in Tally(env, s.info, floating, false, Some(Spec.NetOf(env, s.info[id])));
  }

  lemma CountsNonNegative(env: Env, s: Spec.State, floating: set<int>, loose: set<int>, net: Network)
    requires Inv(env, s, floating, loose)
    ensures Spec.CountOf(s.counts, net).asNew >= 0 && Spec.CountOf(s.counts, net).asTried >= 0
  {
  }
}
