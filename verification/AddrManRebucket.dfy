/**
  Loading a file into a node that groups addresses differently: which entries of each table survive and where they
  go, for any file, and the proof that a manager's own file is accepted by every other node.
 */
module AddrManRebucket {
  import opened Prelude
  import opened AddrTypes
  import opened AddrManInvariant
  import opened AddrManOps
  import opened AddrManCheck
  import opened AddrManLoaded
  import Spec = AddrManSpec
  import Disk = AddrManDisk

  /** The entry of a record: everything that is stored of it, and nothing remembered otherwise. */
  predicate IsRecord(i: AddrInfo, r: Disk.Record, inTried: bool) {
    && i.addr == r.addr && i.source == r.source && i.lastSuccess == r.lastSuccess && i.attempts == r.attempts
    && i.lastTry == 0 && i.lastCountAttempt == 0 && i.inTried == inTried
  }

  // ----- the records of the new table -----

  lemma {:induction false} NewRecordsRead(env: Env, s: Spec.State, rs: seq<Disk.Record>)
    requires s.info == map[]
    ensures var t := Disk.LoadNew(env, s, rs);
            && t == s.(info := t.info, addr := t.addr, random := t.random, counts := t.counts)
            && (forall k :: k in t.info <==> 0 <= k < |rs|)
            && (forall k | 0 <= k < |rs| :: k in t.info && IsRecord(t.info[k], rs[k], false) && t.info[k].refCount == 0)
    decreases |rs|
  {
    hide Spec.AddCount, Spec.NetOf;
    if rs != [] { NewRecordsRead(env, s, rs[..|rs| - 1]); }
  }

  // ----- the records of the tried table -----

  /** The record may stand in this slot. */
  predicate Claims(env: Env, key: Key, r: Disk.Record, slot: Slot) {
    env.valid(r.addr.service.ip) && TriedSlot(env, key, r.addr.service) == slot
  }

  ghost predicate Claimed(env: Env, key: Key, rs: seq<Disk.Record>, slot: Slot) {
    exists m :: 0 <= m < |rs| && Claims(env, key, rs[m], slot)
  }

  /** The record has a valid address, and no earlier one claims its slot. */
  ghost predicate Wins(env: Env, key: Key, rs: seq<Disk.Record>, n: nat)
    requires n < |rs|
  {
    env.valid(rs[n].addr.service.ip) && !Claimed(env, key, rs[..n], TriedSlot(env, key, rs[n].addr.service))
  }

  lemma ClaimedStep(env: Env, key: Key, rs: seq<Disk.Record>, slot: Slot)
    requires rs != []
    ensures Claimed(env, key, rs, slot) <==>
            Claimed(env, key, rs[..|rs| - 1], slot) || Claims(env, key, rs[|rs| - 1], slot)
  {
    hide Claims;
    var n := |rs| - 1;
    if Claimed(env, key, rs, slot) {
      var m :| 0 <= m < |rs| && Claims(env, key, rs[m], slot);
      if m < n { assert Claims(env, key, rs[..n][m], slot); }
    }
    if Claimed(env, key, rs[..n], slot) {
      var m :| 0 <= m < n && Claims(env, key, rs[..n][m], slot);
      assert Claims(env, key, rs[m], slot);
    }
  }

  lemma {:induction false} TriedClaimed(env: Env, s: Spec.State, rs: seq<Disk.Record>, slot: Slot)
    requires s.triedTab == map[]
    ensures slot in Disk.LoadTried(env, s, rs).triedTab <==> Claimed(env, s.key, rs, slot)
    ensures Disk.LoadTried(env, s, rs).key == s.key
    decreases |rs|
  {
    hide Claimed, TriedSlot, Spec.AddCount, Spec.NetOf;
    if rs == [] {
      NoneClaimed(env, s.key, slot);
    } else {
      TriedClaimed(env, s, rs[..|rs| - 1], slot);
      TriedClaimed(env, s, rs[..|rs| - 1], TriedSlot(env, s.key, rs[|rs| - 1].addr.service));
      ClaimedStep(env, s.key, rs, slot);
    }
  }

  lemma NoneClaimed(env: Env, key: Key, slot: Slot)
    ensures !Claimed(env, key, [], slot)
  {
  }

  /** The slot of a record that wins holds its entry. */
  lemma {:induction false} WinnerKept(env: Env, s: Spec.State, rs: seq<Disk.Record>, n: nat)
    requires s.triedTab == map[] && n < |rs| && Wins(env, s.key, rs, n)
    requires Below(s.info, s.idCount)
    ensures var t := Disk.LoadTried(env, s, rs);
            var slot := TriedSlot(env, s.key, rs[n].addr.service);
            && slot in t.triedTab && t.triedTab[slot] in t.info && t.triedTab[slot] < t.idCount
            && IsRecord(t.info[t.triedTab[slot]], rs[n], true)
    decreases |rs|
  {
    hide Claimed, TriedSlot, Spec.AddCount, Spec.NetOf, Below;
    var last := |rs| - 1;
    var slot := TriedSlot(env, s.key, rs[n].addr.service);
    TriedClaimed(env, s, rs[..last], slot);
    if n < last {
      assert rs[..last][..n] == rs[..n] && rs[..last][n] == rs[n];
      WinnerKept(env, s, rs[..last], n);
    }
  }

  /** What reading the tried records leaves alone, and the count: as many slots as records that were not lost. */
  lemma {:induction false} TriedRead(env: Env, s: Spec.State, rs: seq<Disk.Record>)
    requires s.triedTab == map[] && Below(s.info, s.idCount)
    ensures var t := Disk.LoadTried(env, s, rs);
            && t == s.(idCount := t.idCount, info := t.info, addr := t.addr, random := t.random,
                       triedTab := t.triedTab, counts := t.counts)
            && t.idCount == s.idCount + |rs| - Disk.Lost(env, s, rs) && |t.triedTab| == t.idCount - s.idCount
            && (forall k | k in s.info :: k in t.info && t.info[k] == s.info[k])
            && (forall k :: k in t.info <==> k in s.info || s.idCount <= k < t.idCount)
            && (forall k | s.idCount <= k < t.idCount :: k in t.info && t.info[k].inTried && t.info[k].refCount == 0)
    decreases |rs|
  {
    hide TriedSlot, Spec.AddCount, Spec.NetOf;
    if rs != [] { TriedRead(env, s, rs[..|rs| - 1]); }
  }

  // ----- the places in the new table -----

  function Home(env: Env, key: Key, i: AddrInfo): Slot { NewSlot(env, key, i.addr.service, i.source) }

  /** Entries that hold a slot have a reference, and no other count differs from nothing. */
  ghost predicate Referenced(s: Spec.State) {
    && (forall slot | slot in s.newTab :: s.newTab[slot] in s.info && s.info[s.newTab[slot]].refCount > 0)
    && (forall k | k in s.info :: s.info[k].refCount >= 0)
  }

  /** Only references and slots are added. */
  ghost predicate OnlyPlaced(s: Spec.State, t: Spec.State) {
    && t == s.(info := t.info, newTab := t.newTab) && t.info.Keys == s.info.Keys
    && (forall k | k in s.info ::
          t.info[k] == s.info[k].(refCount := t.info[k].refCount) && s.info[k].refCount <= t.info[k].refCount)
    && (forall slot | slot in s.newTab :: slot in t.newTab && t.newTab[slot] == s.newTab[slot])
  }

  lemma OnlyPlacedTrans(s: Spec.State, t: Spec.State, u: Spec.State)
    requires OnlyPlaced(s, t) && OnlyPlaced(t, u)
    ensures OnlyPlaced(s, u)
  {
  }

  /**
    A remembered place is dealt with: unless its address is invalid, its entry has a slot or was kept out of every slot
    it may take by other entries.
   */
  ghost predicate Settled(env: Env, t: Spec.State, restoreBucketing: bool, p: Disk.Place)
    requires p.index in t.info
  {
    var i := t.info[p.index];
    var slot := SlotInBucket(env, t.key, i.addr.service, p.bucket);
    || !env.valid(i.addr.service.ip)
    || i.refCount > 0
    || (&& TakenByOther(t.newTab, Home(env, t.key, i), p.index)
        && (restoreBucketing ==> TakenByOther(t.newTab, slot, p.index)))
  }

  predicate TakenByOther(tab: map<Slot, int>, slot: Slot, id: int) { slot in tab && tab[slot] != id }

  lemma RestoreSettles(env: Env, s: Spec.State, restoreBucketing: bool, p: Disk.Place)
    requires Referenced(s) && p.index in s.info
    ensures var t := Disk.Restore(env, s, restoreBucketing, p);
            Referenced(t) && OnlyPlaced(s, t) && Settled(env, t, restoreBucketing, p)
  {
    hide NewSlot, SlotInBucket, Spec.PutNew, OnlyPlaced;
    var i := s.info[p.index];
    SamePlaced(s);
    PutNewPlaces(s, SlotInBucket(env, s.key, i.addr.service, p.bucket), p.index);
    PutNewPlaces(s, Home(env, s.key, i), p.index);
  }

  lemma PutNewPlaces(s: Spec.State, slot: Slot, id: int)
    requires Referenced(s) && id in s.info
    ensures var t := Spec.PutNew(s, slot, id);
            && t.key == s.key && t.info == s.info[id := s.info[id].(refCount := s.info[id].refCount + 1)]
            && t.newTab == s.newTab[slot := id]
            && (slot !in s.newTab ==> Referenced(t) && OnlyPlaced(s, t))
  {
  }

  lemma SamePlaced(s: Spec.State)
    ensures OnlyPlaced(s, s)
  {
  }

  lemma StaysSettled(env: Env, s: Spec.State, t: Spec.State, restoreBucketing: bool, p: Disk.Place)
    requires OnlyPlaced(s, t) && p.index in s.info && Settled(env, s, restoreBucketing, p)
    ensures Settled(env, t, restoreBucketing, p)
  {
    hide NewSlot, SlotInBucket;
  }

  lemma {:induction false} AllSettled(
    env: Env, s: Spec.State, restoreBucketing: bool, ps: seq<Disk.Place>, j: nat)
    requires Referenced(s) && forall k | 0 <= k < |ps| :: ps[k].index in s.info
    ensures var t := Disk.RestoreAll(env, s, restoreBucketing, ps);
            && Referenced(t) && OnlyPlaced(s, t)
            && (j < |ps| ==> Settled(env, t, restoreBucketing, ps[j]))
    decreases |ps|
  {
    hide Referenced, Settled, Disk.Restore;
    if ps != [] {
      var n := |ps| - 1;
      AllSettled(env, s, restoreBucketing, ps[..n], j);
      var t := Disk.RestoreAll(env, s, restoreBucketing, ps[..n]);
      RestoreSettles(env, t, restoreBucketing, ps[n]);
      var u := Disk.Restore(env, t, restoreBucketing, ps[n]);
      OnlyPlacedTrans(s, t, u);
      if j < n { StaysSettled(env, t, u, restoreBucketing, ps[j]); }
    }
  }

  /** When bucketing is not restored, an entry stands in its home slot or nowhere. */
  ghost predicate AtHome(env: Env, s: Spec.State) {
    && (forall slot | slot in s.newTab ::
          s.newTab[slot] in s.info && slot == Home(env, s.key, s.info[s.newTab[slot]]))
    && (forall k | k in s.info && s.info[k].refCount > 0 ::
          Home(env, s.key, s.info[k]) in s.newTab && s.newTab[Home(env, s.key, s.info[k])] == k)
  }

  lemma {:induction false} RebucketedAtHome(env: Env, s: Spec.State, ps: seq<Disk.Place>)
    requires Referenced(s) && AtHome(env, s) && forall k | 0 <= k < |ps| :: ps[k].index in s.info
    ensures AtHome(env, Disk.RestoreAll(env, s, false, ps))
    decreases |ps|
  {
    hide Disk.Restore, AtHome, Referenced;
    if ps != [] {
      var n := |ps| - 1;
      RebucketedAtHome(env, s, ps[..n]);
      AllSettled(env, s, false, ps[..n], n);
      RestoreAtHome(env, Disk.RestoreAll(env, s, false, ps[..n]), ps[n]);
    }
  }

  lemma RestoreAtHome(env: Env, s: Spec.State, p: Disk.Place)
    requires AtHome(env, s) && p.index in s.info
    ensures AtHome(env, Disk.Restore(env, s, false, p))
  {
    hide NewSlot;
  }

  /** The entry of this place may stand in this slot if bucketing is not restored. */
  predicate Seeks(env: Env, key: Key, info: InfoMap, p: Disk.Place, slot: Slot) {
    p.index in info && env.valid(info[p.index].addr.service.ip) && Home(env, key, info[p.index]) == slot
  }

  ghost predicate Sought(env: Env, key: Key, info: InfoMap, ps: seq<Disk.Place>, slot: Slot) {
    exists m :: 0 <= m < |ps| && Seeks(env, key, info, ps[m], slot)
  }

  lemma SoughtStep(env: Env, key: Key, info: InfoMap, ps: seq<Disk.Place>, slot: Slot)
    requires ps != []
    ensures Sought(env, key, info, ps, slot) <==>
            Sought(env, key, info, ps[..|ps| - 1], slot) || Seeks(env, key, info, ps[|ps| - 1], slot)
  {
    hide Seeks;
    var n := |ps| - 1;
    if Sought(env, key, info, ps, slot) {
      var m :| 0 <= m < |ps| && Seeks(env, key, info, ps[m], slot);
      if m < n { assert Seeks(env, key, info, ps[..n][m], slot); }
    }
    if Sought(env, key, info, ps[..n], slot) {
      var m :| 0 <= m < n && Seeks(env, key, info, ps[..n][m], slot);
      assert Seeks(env, key, info, ps[m], slot);
    }
  }

  lemma NoneSought(env: Env, key: Key, info: InfoMap, slot: Slot)
    ensures !Sought(env, key, info, [], slot)
  {
  }

  ghost predicate Unplaced(s: Spec.State) {
    s.newTab == map[] && forall k | k in s.info :: s.info[k].refCount == 0
  }

  lemma UnplacedFacts(env: Env, s: Spec.State)
    requires Unplaced(s)
    ensures Referenced(s) && AtHome(env, s) && s.newTab == map[]
  {
    hide NewSlot;
  }

  /** Without restored bucketing a slot is filled exactly if a listed entry with a valid address has its home there. */
  lemma {:induction false} HomesFilled(env: Env, s: Spec.State, ps: seq<Disk.Place>, slot: Slot)
    requires Unplaced(s) && forall k | 0 <= k < |ps| :: ps[k].index in s.info
    ensures slot in Disk.RestoreAll(env, s, false, ps).newTab <==> Sought(env, s.key, s.info, ps, slot)
    decreases |ps|
  {
    hide Disk.Restore, Sought, Seeks, AtHome, Referenced, OnlyPlaced, Unplaced;
    UnplacedFacts(env, s);
    if ps == [] {
      NoneSought(env, s.key, s.info, slot);
    } else {
      var n := |ps| - 1;
      HomesFilled(env, s, ps[..n], slot);
      SoughtStep(env, s.key, s.info, ps, slot);
      AllSettled(env, s, false, ps[..n], n);
      RebucketedAtHome(env, s, ps[..n]);
      HomeFilledNext(env, s, Disk.RestoreAll(env, s, false, ps[..n]), ps[n], slot);
    }
  }

  /** One more place: its home slot is filled, by it if the slot was free. */
  lemma HomeFilledNext(env: Env, s: Spec.State, t: Spec.State, p: Disk.Place, slot: Slot)
    requires OnlyPlaced(s, t) && Referenced(t) && AtHome(env, t) && p.index in s.info
    ensures var u := Disk.Restore(env, t, false, p);
            && (slot in u.newTab <==> slot in t.newTab || Seeks(env, s.key, s.info, p, slot))
            && (slot in t.newTab ==> u.newTab[slot] == t.newTab[slot])
            && (slot !in t.newTab && slot in u.newTab ==> u.newTab[slot] == p.index)
  {
    hide NewSlot, SlotInBucket;
    if t.info[p.index].refCount > 0 { HomeOrNowhere(env, t, p.index); }
  }

  lemma HomeOrNowhere(env: Env, t: Spec.State, id: int)
    requires AtHome(env, t) && id in t.info && t.info[id].refCount > 0
    ensures Home(env, t.key, t.info[id]) in t.newTab
  {
  }

  /** And it goes to the entry listed first. */
  lemma {:induction false} HomeGoesToFirst(env: Env, s: Spec.State, ps: seq<Disk.Place>, slot: Slot, j: nat)
    requires Unplaced(s) && forall k | 0 <= k < |ps| :: ps[k].index in s.info
    requires j < |ps| && Seeks(env, s.key, s.info, ps[j], slot) && !Sought(env, s.key, s.info, ps[..j], slot)
    ensures var t := Disk.RestoreAll(env, s, false, ps); slot in t.newTab && t.newTab[slot] == ps[j].index
    decreases |ps|
  {
    hide Disk.Restore, Sought, Seeks, AtHome, Referenced, OnlyPlaced, Unplaced;
    UnplacedFacts(env, s);
    var n := |ps| - 1;
    HomesFilled(env, s, ps[..n], slot);
    AllSettled(env, s, false, ps[..n], n);
    RebucketedAtHome(env, s, ps[..n]);
    HomeFilledNext(env, s, Disk.RestoreAll(env, s, false, ps[..n]), ps[n], slot);
    if j < n {
      assert ps[..n][..j] == ps[..j] && ps[..n][j] == ps[j];
      HomeGoesToFirst(env, s, ps[..n], slot, j);
    }
  }

  // ----- pruning -----

  /** Pruning removes new entries without a slot and nothing else; if it visits every entry, all of them. */
  lemma {:induction false} PruneEffect(env: Env, s: Spec.State, order: seq<int>)
    requires RandomOk(s.info, s.random)
    ensures var t := Disk.Prune(env, s, order);
            && RandomOk(t.info, t.random) && t.newTab == s.newTab && t.triedTab == s.triedTab && t.key == s.key
            && (forall k :: k in t.info <==>
                  k in s.info && !(k in order && !s.info[k].inTried && s.info[k].refCount == 0))
            && (forall k | k in t.info :: SameButPlace(t.info[k], s.info[k]))
    decreases |order|
  {
    hide RandomOk, Spec.Delete;
    if order != [] {
      var n := |order| - 1;
      PruneEffect(env, s, order[..n]);
      var t := Disk.Prune(env, s, order[..n]);
      assert order == order[..n] + [order[n]];
      if order[n] in t.info && !t.info[order[n]].inTried && t.info[order[n]].refCount == 0 {
        DeleteEffect(env, t, order[n]);
        DeleteOrder(env, t, order[n]);
      }
    }
  }

  lemma DeleteOrder(env: Env, s: Spec.State, id: int)
    requires RandomOk(s.info, s.random) && id in s.info
    ensures var t := Spec.Delete(env, s, id); RandomOk(t.info, t.random)
  {
    hide Spec.SwapRandom, Spec.AddCount, Spec.NetOf, RandomOk;
    SwapToLast(s, id);
    SwapRandomEffect(s, s.info[id].randomPos, |s.random| - 1);
    SwapStaysOk(s, id);
    var t := Spec.SwapRandom(s, s.info[id].randomPos, |s.random| - 1);
    DropLast(t.info, t.random, id);
  }

  // ----- any file -----

  lemma UnrestoredFacts(env: Env, f: Disk.File)
    requires Disk.Framed(f) && f.nNew >= 0 && f.nTried >= 0
    ensures var u := Unrestored(env, f);
            && u.key == f.key && u.nNew == f.nNew && u.nTried == |u.triedTab| == u.idCount - f.nNew
            && u.collisions == {} && Unplaced(u)
            && (forall k :: k in u.info <==> 0 <= k < u.idCount)
            && (forall k | 0 <= k < f.nNew :: k in u.info && IsRecord(u.info[k], f.newRecords[k], false))
            && (forall k | f.nNew <= k < u.idCount :: k in u.info && u.info[k].inTried)
  {
    hide Disk.LoadNew, Disk.LoadTried, Disk.Lost, IsRecord;
    var s := Spec.Initial(f.key).(nNew := f.nNew, nTried := f.nTried);
    NewRecordsRead(env, s, f.newRecords);
    TriedRead(env, Disk.LoadNew(env, s, f.newRecords).(idCount := f.nNew), f.triedRecords);
  }

  lemma UnrestoredTried(env: Env, f: Disk.File, slot: Slot)
    requires Disk.Framed(f) && f.nNew >= 0
    ensures slot in Unrestored(env, f).triedTab <==> Claimed(env, f.key, f.triedRecords, slot)
  {
    hide Disk.LoadNew, Disk.LoadTried, Disk.Lost, IsRecord, Claimed;
    var s := Spec.Initial(f.key).(nNew := f.nNew, nTried := f.nTried);
    NewRecordsRead(env, s, f.newRecords);
    TriedClaimed(env, Disk.LoadNew(env, s, f.newRecords).(idCount := f.nNew), f.triedRecords, slot);
  }

  lemma UnrestoredWinner(env: Env, f: Disk.File, n: nat)
    requires Disk.Framed(f) && f.nNew >= 0 && n < |f.triedRecords| && Wins(env, f.key, f.triedRecords, n)
    ensures var u := Unrestored(env, f);
            var slot := TriedSlot(env, f.key, f.triedRecords[n].addr.service);
            && slot in u.triedTab && u.triedTab[slot] in u.info
            && IsRecord(u.info[u.triedTab[slot]], f.triedRecords[n], true)
  {
    hide Disk.LoadNew, Disk.LoadTried, Disk.Lost, IsRecord, Wins, TriedSlot;
    var s := Spec.Initial(f.key).(nNew := f.nNew, nTried := f.nTried);
    NewRecordsRead(env, s, f.newRecords);
    WinnerKept(env, Disk.LoadNew(env, s, f.newRecords).(idCount := f.nNew), f.triedRecords, n);
  }

  /** What loading has made of the records, before the check; `order` visits every entry. */
  ghost predicate Reads(env: Env, f: Disk.File, order: seq<int>, t: Spec.State) {
    && Disk.Framed(f) && f.nNew >= 0 && f.nTried >= 0 && Disk.Enumerates(order, Disk.Load(env, f).info)
    && t == Disk.Prune(env, Disk.Load(env, f), order)
  }

  lemma LoadedReads(env: Env, f: Disk.File, order: seq<int>)
    requires Disk.Framed(f) && Disk.Enumerates(order, Disk.Load(env, f).info)
    ensures var (status, t) := Disk.Unserialize(env, f, order);
            status.Loaded? || status.CheckFailed? ==> Reads(env, f, order, t)
  {
    hide Disk.Framed, Disk.Enumerates, Disk.Load, Disk.Prune, CheckOk;
  }

  /** Which tried slots are occupied: those that some record with a valid address claims. */
  lemma TriedOfFile(env: Env, f: Disk.File, order: seq<int>, t: Spec.State, slot: Slot)
    requires Reads(env, f, order, t)
    ensures slot in t.triedTab <==> Claimed(env, f.key, f.triedRecords, slot)
  {
    hide Unrestored, Claimed, Disk.Load, Disk.Prune, Disk.RestoreAll, Disk.Places;
    LoadedFacts(env, f, order, t);
    UnrestoredTried(env, f, slot);
  }

  /** And the first of them is the entry in that slot. */
  lemma TriedWinner(env: Env, f: Disk.File, order: seq<int>, t: Spec.State, n: nat)
    requires Reads(env, f, order, t) && n < |f.triedRecords| && Wins(env, f.key, f.triedRecords, n)
    ensures var slot := TriedSlot(env, f.key, f.triedRecords[n].addr.service);
            && slot in t.triedTab && t.triedTab[slot] in t.info
            && IsRecord(t.info[t.triedTab[slot]], f.triedRecords[n], true)
  {
    hide Unrestored, Wins, TriedSlot, Disk.Load, Disk.Prune, Disk.RestoreAll, Disk.Places;
    LoadedFacts(env, f, order, t);
    UnrestoredWinner(env, f, n);
    var id := t.triedTab[TriedSlot(env, f.key, f.triedRecords[n].addr.service)];
    assert id in t.info && SameButPlace(t.info[id], Disk.Load(env, f).info[id]);
  }

  lemma LoadedFacts(env: Env, f: Disk.File, order: seq<int>, t: Spec.State)
    requires Reads(env, f, order, t)
    ensures var u, v := Unrestored(env, f), Disk.Load(env, f);
            && OnlyPlaced(u, v) && Referenced(v)
            && t.newTab == v.newTab && t.triedTab == u.triedTab && t.key == f.key
            && (forall k :: k in t.info <==> k in u.info && (u.info[k].inTried || v.info[k].refCount > 0))
            && (forall k | k in t.info :: SameButPlace(t.info[k], v.info[k]))
  {
    hide Unrestored, Disk.RestoreAll, Disk.Places, Disk.Load, Disk.Prune, IsRecord;
    var u, v, ps := Unrestored(env, f), Disk.Load(env, f), Disk.Places(f.buckets, f.nNew);
    UnrestoredFacts(env, f);
    UnplacedFacts(env, u);
    LoadSteps(env, f);
    PlacesRange(f.buckets, f.nNew);
    AllSettled(env, u, Disk.RestoresBucketing(env, f), ps, |ps|);
    LoadTidy(env, f);
    SoundOrder(env, v);
    PruneEffect(env, v, order);
    forall k ensures k in order <==> k in v.info { Disk.Lists(order, v.info, k); }
  }

  /**
    A record of the new table whose address is valid and which some bucket lists survives, unless other entries hold
    its home slot and, if bucketing is restored, the slot it was listed for.
   */
  lemma ListedSurvives(env: Env, f: Disk.File, order: seq<int>, t: Spec.State, j: nat)
    requires Reads(env, f, order, t) && j < |Disk.Places(f.buckets, f.nNew)|
    ensures var p := Disk.Places(f.buckets, f.nNew)[j];
            && 0 <= p.index < |f.newRecords|
            && var r := f.newRecords[p.index];
               env.valid(r.addr.service.ip) ==>
                 || (p.index in t.info && IsRecord(t.info[p.index], r, false))
                 || (&& p.index !in t.info
                     && TakenByOther(t.newTab, NewSlot(env, f.key, r.addr.service, r.source), p.index)
                     && (Disk.RestoresBucketing(env, f) ==>
                           TakenByOther(t.newTab, SlotInBucket(env, f.key, r.addr.service, p.bucket), p.index)))
  {
    hide Unrestored, Disk.RestoreAll, Disk.Places, Disk.Load, Disk.Prune, NewSlot, SlotInBucket, Disk.RestoresBucketing;
    var u, v, ps := Unrestored(env, f), Disk.Load(env, f), Disk.Places(f.buckets, f.nNew);
    LoadedFacts(env, f, order, t);
    UnrestoredFacts(env, f);
    UnplacedFacts(env, u);
    LoadSteps(env, f);
    PlacesRange(f.buckets, f.nNew);
    AllSettled(env, u, Disk.RestoresBucketing(env, f), ps, j);
  }

  /** Without restored bucketing a record survives exactly in its home slot, with that one reference. */
  lemma RebucketedHome(env: Env, f: Disk.File, order: seq<int>, t: Spec.State, k: nat)
    requires Reads(env, f, order, t) && !Disk.RestoresBucketing(env, f) && k < |f.newRecords|
    ensures var r := f.newRecords[k];
            var home := NewSlot(env, f.key, r.addr.service, r.source);
            && (k in t.info <==> home in t.newTab && t.newTab[home] == k)
            && (k in t.info ==> IsRecord(t.info[k], r, false))
            && (forall slot | slot in t.newTab && t.newTab[slot] == k :: slot == home)
  {
    hide Unrestored, Disk.RestoreAll, Disk.Places, Disk.Load, Disk.Prune, NewSlot, SlotInBucket, Disk.RestoresBucketing;
    var u, v, ps := Unrestored(env, f), Disk.Load(env, f), Disk.Places(f.buckets, f.nNew);
    LoadedFacts(env, f, order, t);
    UnrestoredFacts(env, f);
    UnplacedFacts(env, u);
    LoadSteps(env, f);
    PlacesRange(f.buckets, f.nNew);
    RebucketedAtHome(env, u, ps);
  }

  lemma {:induction false} InvalidUnplaced(
    env: Env, s: Spec.State, restoreBucketing: bool, ps: seq<Disk.Place>, k: int)
    requires Referenced(s) && forall j | 0 <= j < |ps| :: ps[j].index in s.info
    requires k in s.info && !env.valid(s.info[k].addr.service.ip)
    ensures var t := Disk.RestoreAll(env, s, restoreBucketing, ps);
            k in t.info && t.info[k].refCount == s.info[k].refCount
    decreases |ps|
  {
    hide Referenced, Disk.Restore;
    if ps != [] {
      var n := |ps| - 1;
      InvalidUnplaced(env, s, restoreBucketing, ps[..n], k);
      AllSettled(env, s, restoreBucketing, ps[..n], n);
      RestoreInvalid(env, Disk.RestoreAll(env, s, restoreBucketing, ps[..n]), restoreBucketing, ps[n], k);
    }
  }

  lemma RestoreInvalid(env: Env, s: Spec.State, restoreBucketing: bool, p: Disk.Place, k: int)
    requires k in s.info && p.index in s.info && !env.valid(s.info[k].addr.service.ip)
    ensures var t := Disk.Restore(env, s, restoreBucketing, p); k in t.info && t.info[k] == s.info[k]
  {
    hide SlotInBucket, NewSlot;
  }

  /** A record of the new table whose address is not valid is dropped. */
  lemma InvalidDropped(env: Env, f: Disk.File, order: seq<int>, t: Spec.State, k: nat)
    requires Reads(env, f, order, t) && k < |f.newRecords| && !env.valid(f.newRecords[k].addr.service.ip)
    ensures k !in t.info
  {
    hide Unrestored, Disk.RestoreAll, Disk.Places, Disk.Load, Disk.Prune, Disk.RestoresBucketing;
    var u, ps := Unrestored(env, f), Disk.Places(f.buckets, f.nNew);
    LoadedFacts(env, f, order, t);
    UnrestoredFacts(env, f);
    UnplacedFacts(env, u);
    LoadSteps(env, f);
    PlacesRange(f.buckets, f.nNew);
    InvalidUnplaced(env, u, Disk.RestoresBucketing(env, f), ps, k);
  }
}
