/** Selection of an address to connect to: the read-only operation Select with the parts it consists of. */
module AddrManQueries {
  import opened Prelude
  import opened AddrTypes
  import opened AddrManInvariant
  import opened AddrManOps
  import opened AddrMan
  import opened AddrManChance
  import Spec = AddrManSpec

  // ----- Select -----

  datatype Selection = Nothing | Found(id: int, fromTried: bool) | StillSearching(fromTried: bool)

  /** One round of random numbers: a bucket, a starting position and 30 bits; and the clock reading it meets. */
  datatype Draw = Draw(bucket: nat, start: nat, bits: nat, now: int)

  predicate Requested(env: Env, i: AddrInfo, networks: set<Network>) {
    networks == {} || Spec.NetOf(env, i) in networks
  }

  /** The entries of one table on the given networks. */
  function OnNets(env: Env, info: InfoMap, inTried: bool, nets: set<Network>): set<int> {
    set id | id in info && info[id].inTried == inTried && Spec.NetOf(env, info[id]) in nets
  }

  lemma OnNetsGrows(env: Env, info: InfoMap, inTried: bool, nets: set<Network>, net: Network)
    requires net !in nets
    ensures |OnNets(env, info, inTried, nets + {net})| ==
            |OnNets(env, info, inTried, nets)| + |Tally(env, info, {}, inTried, Some(net))|
  {
    hide Spec.NetOf;
    var a, b := OnNets(env, info, inTried, nets), Tally(env, info, {}, inTried, Some(net));
    assert OnNets(env, info, inTried, nets + {net}) == a + b;
    assert a !! b;
  }

  /** The sizes Select_ computes from the counters are those of the entries that may be selected. */
  method CountRequested(m: AddrManImpl, networks: set<Network>) returns (asNew: int, asTried: int)
    requires m.Ok()
    ensures asNew >= 0 && asTried >= 0
    ensures asNew > 0 <==>
            exists id :: id in m.mapInfo && !m.mapInfo[id].inTried && Requested(m.env, m.mapInfo[id], networks)
    ensures asTried > 0 <==>
            exists id :: id in m.mapInfo && m.mapInfo[id].inTried && Requested(m.env, m.mapInfo[id], networks)
  {
    hide Table, Tally, OnNets, Spec.NetOf, Requested;
    var env, info := m.env, m.mapInfo;
    CountersExact(env, m.Abs());
    asNew, asTried := m.nNew, m.nTried;
    if networks != {} {
      asNew, asTried := 0, 0;
      var todo := networks;
      NoNets(env, info);
      assert networks - todo == {};
      while todo != {}
        invariant todo <= networks
        invariant asNew == |OnNets(env, info, false, networks - todo)|
        invariant asTried == |OnNets(env, info, true, networks - todo)|
        decreases |todo|
      {
        var net := Pick(todo);
        OnNetsGrows(env, info, false, networks - todo, net);
        OnNetsGrows(env, info, true, networks - todo, net);
        assert networks - (todo - {net}) == networks - todo + {net};
        if net in m.mNetworkCounts {
          asNew := asNew + m.mNetworkCounts[net].asNew;
          asTried := asTried + m.mNetworkCounts[net].asTried;
        }
        todo := todo - {net};
      }
      assert networks - todo == networks;
    }
    CountMeansSome(env, info, false, networks);
    CountMeansSome(env, info, true, networks);
  }

  lemma CountersExact(env: Env, s: Spec.State)
    requires Consistent(env, s)
    ensures s.nNew == |Tally(env, s.info, {}, false, None)| && s.nTried == |Tally(env, s.info, {}, true, None)|
    ensures forall net :: Spec.CountOf(s.counts, net) == Spec.Count(|Tally(env, s.info, {}, false, Some(net))|,
                                                                   |Tally(env, s.info, {}, true, Some(net))|)
  {
  }

  lemma NoNets(env: Env, info: InfoMap)
    ensures OnNets(env, info, false, {}) == {} == OnNets(env, info, true, {})
  {
  }

  lemma CountMeansSome(env: Env, info: InfoMap, inTried: bool, networks: set<Network>)
    ensures var n := if networks == {} then |Tally(env, info, {}, inTried, None)|
                     else |OnNets(env, info, inTried, networks)|;
            n > 0 <==> exists id :: id in info && info[id].inTried == inTried && Requested(env, info[id], networks)
  {
    hide Spec.NetOf;
    var ids := if networks == {} then Tally(env, info, {}, inTried, None) else OnNets(env, info, inTried, networks);
    assert forall id :: id in ids <==> id in info && info[id].inTried == inTried && Requested(env, info[id], networks);
    if |ids| > 0 {
      var id := Witness(ids);
      assert id in info && Requested(env, info[id], networks);
    }
  }

  /** The table that is searched. */
  ghost function Searched(s: Spec.State, fromTried: bool): map<Slot, int> {
    if fromTried then s.triedTab else s.newTab
  }

  /** The slot holds an entry of a requested network. */
  ghost predicate Hits(env: Env, s: Spec.State, fromTried: bool, slot: Slot, networks: set<Network>) {
    var tab := Searched(s, fromTried);
    slot in tab && tab[slot] in s.info && Requested(env, s.info[tab[slot]], networks)
  }

  lemma SlotHolder(env: Env, s: Spec.State, fromTried: bool, slot: Slot)
    requires Consistent(env, s) && slot in Searched(s, fromTried)
    ensures var id := Searched(s, fromTried)[slot];
            id in s.info && s.info[id].inTried == fromTried
  {
  }

  method GetEntry(m: AddrManImpl, useTried: bool, bucket: nat, position: nat) returns (id: int)
    requires m.Ok()
    requires bucket < (if useTried then TRIED_BUCKET_COUNT else NEW_BUCKET_COUNT) && position < BUCKET_SIZE
    ensures Slot(bucket, position) in Searched(m.Abs(), useTried) <==> id != EMPTY
    ensures id != EMPTY ==> Searched(m.Abs(), useTried)[Slot(bucket, position)] == id
  {
    hide Valid, Table;
    if useTried {
      TableAt(m.vvTried, Slot(bucket, position));
      id := m.vvTried[bucket, position];
    } else {
      TableAt(m.vvNew, Slot(bucket, position));
      id := m.vvNew[bucket, position];
    }
  }

  /** The slot at a distance of i from the starting position, around the bucket. */
  function SlotFrom(bucket: int, start: int, i: int): Slot { Slot(bucket, (start + i) % BUCKET_SIZE) }

  /** The first requested entry of a bucket from a starting position on and around, at a distance of i or more. */
  ghost function Nearest(
    env: Env, s: Spec.State, fromTried: bool, bucket: int, start: int, networks: set<Network>, i: int): Option<int>
    decreases BUCKET_SIZE - i
  {
    var slot := SlotFrom(bucket, start, i);
    if i >= BUCKET_SIZE then None
    else if Hits(env, s, fromTried, slot, networks) then Some(Searched(s, fromTried)[slot])
    else Nearest(env, s, fromTried, bucket, start, networks, i + 1)
  }

  /** Nothing is found exactly if the bucket holds no requested entry; and no requested entry is nearer. */
  lemma {:induction false} NearestFacts(
    env: Env, s: Spec.State, fromTried: bool, bucket: int, start: int, networks: set<Network>, i: int) returns (at: int)
    requires 0 <= i <= BUCKET_SIZE
    ensures var found := Nearest(env, s, fromTried, bucket, start, networks, i);
            && i <= at <= BUCKET_SIZE && (found.None? <==> at == BUCKET_SIZE)
            && (forall k | i <= k < at :: !Hits(env, s, fromTried, SlotFrom(bucket, start, k), networks))
            && (found.Some? ==>
                  var slot := SlotFrom(bucket, start, at);
                  Hits(env, s, fromTried, slot, networks) && Searched(s, fromTried)[slot] == found.value)
    decreases BUCKET_SIZE - i
  {
    hide Requested, SlotFrom;
    at := i;
    if i < BUCKET_SIZE && !Hits(env, s, fromTried, SlotFrom(bucket, start, i), networks) {
      at := NearestFacts(env, s, fromTried, bucket, start, networks, i + 1);
    }
  }

  /** One pass over a bucket from a starting position and around: it finds the nearest requested entry. */
  method ScanBucket(m: AddrManImpl, fromTried: bool, bucket: nat, start: nat, networks: set<Network>) returns (id: int)
    requires m.Ok() && start < BUCKET_SIZE
    requires bucket < (if fromTried then TRIED_BUCKET_COUNT else NEW_BUCKET_COUNT)
    ensures var found := Nearest(m.env, m.Abs(), fromTried, bucket, start, networks, 0);
            (id == EMPTY <==> found.None?) && (found.Some? ==> id == found.value)
    ensures id == EMPTY <==>
            forall p | 0 <= p < BUCKET_SIZE :: !Hits(m.env, m.Abs(), fromTried, Slot(bucket, p), networks)
    ensures id != EMPTY ==>
            id in m.mapInfo && m.mapInfo[id].inTried == fromTried && Requested(m.env, m.mapInfo[id], networks)
  {
    hide Consistent, Valid, Table, Requested, Searched;
    ghost var s := m.Abs();
    var i := 0;
    while i < BUCKET_SIZE
      invariant 0 <= i <= BUCKET_SIZE
      invariant Nearest(m.env, s, fromTried, bucket, start, networks, 0) ==
                Nearest(m.env, s, fromTried, bucket, start, networks, i)
    {
      var position := (start + i) % BUCKET_SIZE;
      id := GetEntry(m, fromTried, bucket, position);
      if id != EMPTY {
        ValidHolder(m.env, s, fromTried, Slot(bucket, position));
        if Requested(m.env, m.mapInfo[id], networks) {
          assert Hits(m.env, s, fromTried, Slot(bucket, position), networks);
          return;
        }
      }
      i := i + 1;
    }
    id := EMPTY;
    NothingNear(m.env, s, fromTried, bucket, start, networks);
  }

  lemma NothingNear(
    env: Env, s: Spec.State, fromTried: bool, bucket: int, start: int, networks: set<Network>)
    requires Nearest(env, s, fromTried, bucket, start, networks, 0).None?
    ensures forall p | 0 <= p < BUCKET_SIZE :: !Hits(env, s, fromTried, Slot(bucket, p), networks)
  {
    hide Hits, Nearest;
    var at := NearestFacts(env, s, fromTried, bucket, start, networks, 0);
    forall p | 0 <= p < BUCKET_SIZE ensures !Hits(env, s, fromTried, Slot(bucket, p), networks) {
      var k := (p - start) % BUCKET_SIZE;
      assert SlotFrom(bucket, start, k) == Slot(bucket, p);
    }
  }

  lemma ValidHolder(env: Env, s: Spec.State, fromTried: bool, slot: Slot)
    requires Valid(env, s) && slot in Searched(s, fromTried)
    ensures var id := Searched(s, fromTried)[slot];
            id in s.info && s.info[id].inTried == fromTried && 0 <= id
  {
    hide Rest, RandomOk, Searched;
    SlotHolder(env, s, fromTried, slot);
    LiveIdIn(env, s, {}, {}, Searched(s, fromTried)[slot]);
  }

  /** Every entry of a table is found in some slot of it. */
  lemma EntryHasSlot(env: Env, s: Spec.State, fromTried: bool, networks: set<Network>, id: int)
    requires Valid(env, s) && id in s.info && s.info[id].inTried == fromTried && Requested(env, s.info[id], networks)
    ensures exists slot :: Hits(env, s, fromTried, slot, networks)
  {
    hide Requested, RandomOk, AddrOk, CountsOk;
    if fromTried {
      assert Hits(env, s, fromTried, TriedSlot(env, s.key, s.info[id].addr.service), networks);
    } else {
      assert |SlotsOf(s.newTab, id)| > 0;
      var slot := Witness(SlotsOf(s.newTab, id));
      assert Hits(env, s, fromTried, slot, networks);
    }
  }

  // ----- the search -----

  ghost function BucketCount(fromTried: bool): nat { if fromTried then TRIED_BUCKET_COUNT else NEW_BUCKET_COUNT }

  /** The entry that one round of the search comes upon. */
  ghost function CameUpon(env: Env, s: Spec.State, fromTried: bool, networks: set<Network>, d: Draw): Option<int> {
    Nearest(env, s, fromTried, d.bucket % BucketCount(fromTried), d.start % BUCKET_SIZE, networks, 0)
  }

  /** How many rounds came upon an entry. */
  ghost function Encounters(env: Env, s: Spec.State, fromTried: bool, networks: set<Network>, draws: seq<Draw>): nat
    decreases |draws|
  {
    if draws == [] then 0
    else
      var n := |draws| - 1;
      Encounters(env, s, fromTried, networks, draws[..n])
      + if CameUpon(env, s, fromTried, networks, draws[n]).Some? then 1 else 0
  }

  /** Round k takes the entry it comes upon; every entry met before has raised its chance. */
  ghost predicate Takes(env: Env, s: Spec.State, fromTried: bool, networks: set<Network>, draws: seq<Draw>, k: nat)
    requires k < |draws|
  {
    var found := CameUpon(env, s, fromTried, networks, draws[k]);
    && found.Some? && found.value in s.info
    && LetsThrough(draws[k].bits, s.info[found.value], draws[k].now,
                   Encounters(env, s, fromTried, networks, draws[..k]))
  }

  /** A search that has met 45 entries has taken one, whatever the random bits. */
  lemma {:induction false} RejectionsEnd(
    env: Env, s: Spec.State, fromTried: bool, networks: set<Network>, draws: seq<Draw>)
    requires Valid(env, s) && forall k | 0 <= k < |draws| :: draws[k].bits < 0x4000_0000
    requires forall k | 0 <= k < |draws| :: !Takes(env, s, fromTried, networks, draws, k)
    ensures Encounters(env, s, fromTried, networks, draws) <= 44
    decreases |draws|
  {
    hide Valid, LetsThrough, CameUpon;
    if draws != [] {
      var n := |draws| - 1;
      forall k | 0 <= k < n ensures !Takes(env, s, fromTried, networks, draws[..n], k) {
        assert draws[..n][..k] == draws[..k] && draws[..n][k] == draws[k];
        assert !Takes(env, s, fromTried, networks, draws, k);
      }
      RejectionsEnd(env, s, fromTried, networks, draws[..n]);
      assert !Takes(env, s, fromTried, networks, draws, n);
      var found := CameUpon(env, s, fromTried, networks, draws[n]);
      if found.Some? && Encounters(env, s, fromTried, networks, draws[..n]) >= 44 {
        MetIsLive(env, s, fromTried, networks, draws[n]);
        NoMoreRejections(draws[n].bits, s.info[found.value], draws[n].now,
          Encounters(env, s, fromTried, networks, draws[..n]));
      }
    }
  }

  lemma MetIsLive(env: Env, s: Spec.State, fromTried: bool, networks: set<Network>, d: Draw)
    requires CameUpon(env, s, fromTried, networks, d).Some?
    ensures CameUpon(env, s, fromTried, networks, d).value in s.info
  {
    hide Nearest, Requested;
    var at := NearestFacts(env, s, fromTried, d.bucket % BucketCount(fromTried), d.start % BUCKET_SIZE, networks, 0);
  }

  /** Some slot of the table can end the search. */
  ghost predicate CanEnd(env: Env, s: Spec.State, fromTried: bool, networks: set<Network>) {
    exists slot :: Hits(env, s, fromTried, slot, networks)
  }

  /** Whether an entry of one table may be selected. */
  ghost predicate Available(env: Env, info: InfoMap, inTried: bool, networks: set<Network>) {
    exists id :: id in info && info[id].inTried == inTried && Requested(env, info[id], networks)
  }

  /**
    Select_ answers Nothing exactly when no entry qualifies. Otherwise it searches the one table it may, or the one the
    coin names, and finds the first entry that is let through; if there is none yet, at most 44 entries were rejected.
   */
  method Select(m: AddrManImpl, newOnly: bool, networks: set<Network>, coin: bool, draws: seq<Draw>)
    returns (r: Selection, ghost k: nat)
    requires m.Ok()
    ensures r.Nothing? <==>
            !Available(m.env, m.mapInfo, false, networks) &&
            (newOnly || !Available(m.env, m.mapInfo, true, networks))
    ensures !r.Nothing? ==>
            && r.fromTried == (if newOnly || !Available(m.env, m.mapInfo, true, networks) then false
                               else if !Available(m.env, m.mapInfo, false, networks) then true else coin)
            && CanEnd(m.env, m.Abs(), r.fromTried, networks)
            && k <= |draws|
            && (forall j | 0 <= j < k :: !Takes(m.env, m.Abs(), r.fromTried, networks, draws, j))
    ensures r.Found? ==>
            && k < |draws| && Takes(m.env, m.Abs(), r.fromTried, networks, draws, k)
            && CameUpon(m.env, m.Abs(), r.fromTried, networks, draws[k]) == Some(r.id)
            && r.id in m.mapInfo && m.mapInfo[r.id].inTried == r.fromTried
            && Requested(m.env, m.mapInfo[r.id], networks)
    ensures r.StillSearching? ==> k == |draws|
    ensures r.StillSearching? && (forall j | 0 <= j < |draws| :: draws[j].bits < 0x4000_0000) ==>
            Encounters(m.env, m.Abs(), r.fromTried, networks, draws) <= 44
  {
    hide Inv, CollisionsOk, Table, Requested, Hits, Nearest, Takes, Encounters, CameUpon, Factor, Chance,
         CanEnd;
    OrderSize(m.env, m.Abs());
    k := 0;
    if m.vRandom == [] { return Nothing, 0; }
    var asNew, asTried := CountRequested(m, networks);
    if newOnly && asNew == 0 { return Nothing, 0; }
    if asNew + asTried == 0 { return Nothing, 0; }
    var searchTried := coin;
    if newOnly || asTried == 0 {
      searchTried := false;
    } else if asNew == 0 {
      searchTried := true;
    }
    SlotToFind(m.env, m.Abs(), searchTried, networks);
    r, k := Search(m, searchTried, networks, draws);
    if r.StillSearching? && forall j | 0 <= j < |draws| :: draws[j].bits < 0x4000_0000 {
      RejectionsEnd(m.env, m.Abs(), searchTried, networks, draws);
    }
  }

  lemma SlotToFind(env: Env, s: Spec.State, fromTried: bool, networks: set<Network>)
    requires Valid(env, s) && Available(env, s.info, fromTried, networks)
    ensures CanEnd(env, s, fromTried, networks)
  {
    hide Valid, Requested, Hits;
    var id :| id in s.info && s.info[id].inTried == fromTried && Requested(env, s.info[id], networks);
    EntryHasSlot(env, s, fromTried, networks, id);
  }

  /** The loop of Select_, for as many rounds as there are random numbers; k is the round that ended it. */
  method Search(m: AddrManImpl, fromTried: bool, networks: set<Network>, draws: seq<Draw>)
    returns (r: Selection, ghost k: nat)
    requires m.Ok()
    ensures k <= |draws| && forall j | 0 <= j < k :: !Takes(m.env, m.Abs(), fromTried, networks, draws, j)
    ensures !r.Nothing? && r.fromTried == fromTried && (r.Found? <==> k < |draws|)
    ensures r.Found? ==>
            && Takes(m.env, m.Abs(), fromTried, networks, draws, k)
            && CameUpon(m.env, m.Abs(), fromTried, networks, draws[k]) == Some(r.id)
            && r.id in m.mapInfo && m.mapInfo[r.id].inTried == fromTried
            && Requested(m.env, m.mapInfo[r.id], networks)
  {
    hide Inv, CollisionsOk, Table, Requested, Hits, Nearest, Chance;
    var bucketCount := if fromTried then TRIED_BUCKET_COUNT else NEW_BUCKET_COUNT;
    var chanceFactor := 1.0;
    var i := 0;
    ghost var met := 0;
    assert draws[..0] == [];
    while i < |draws|
      invariant 0 <= i <= |draws| && chanceFactor == Factor(met)
      invariant met == Encounters(m.env, m.Abs(), fromTried, networks, draws[..i])
      invariant forall j | 0 <= j < i :: !Takes(m.env, m.Abs(), fromTried, networks, draws, j)
    {
      assert draws[..i + 1][..i] == draws[..i];
      var found := ScanBucket(m, fromTried, draws[i].bucket % bucketCount, draws[i].start % BUCKET_SIZE, networks);
      if found != EMPTY {
        var info := m.mapInfo[found];
        if draws[i].bits as real < chanceFactor * Chance(info, draws[i].now) * 1073741824.0 {
          return Found(found, fromTried), i;
        }
        chanceFactor := chanceFactor * 1.2;
        met := met + 1;
      }
      i := i + 1;
    }
    return StillSearching(fromTried), i;
  }

  /** The random order has exactly one place per live entry. */
  lemma OrderSize(env: Env, s: Spec.State)
    requires Consistent(env, s)
    ensures |s.random| == |s.info|
  {
    hide Inv, Distinct;
    RandomListsLive(env, s);
    SameInts(s.info.Keys, Members(s.random));
    DistinctSize(s.random);
  }
}
