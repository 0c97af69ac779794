/** How much of the tables one network group can occupy: the design goal of the bucket hashing. */
module AddrManBuckets {
  import opened Prelude
  import opened AddrTypes
  import opened AddrManInvariant
  import opened AddrManOps
  import Spec = AddrManSpec

  // ----- buckets -----

  ghost function TriedBucketsOf(env: Env, key: Key, g: Group): seq<int> {
    seq(8, k requires 0 <= k => env.cheapHash(TriedGroup(key, g, k)) % 256)
  }

  ghost function NewBucketsOf(env: Env, key: Key, g: Group): seq<int> {
    seq(64, k requires 0 <= k => env.cheapHash(NewSpread(key, g, k)) % 1024)
  }

  lemma TriedBucketIn(env: Env, key: Key, a: Service)
    ensures TriedBucket(env, key, a) in TriedBucketsOf(env, key, env.group(a.ip))
  {
    var k := env.cheapHash(TriedKey(key, a)) % 8;
    assert TriedBucketsOf(env, key, env.group(a.ip))[k] == TriedBucket(env, key, a);
  }

  lemma NewBucketIn(env: Env, key: Key, a: Service, source: NetAddr)
    ensures NewBucket(env, key, a, source) in NewBucketsOf(env, key, env.group(source))
  {
    var k := env.cheapHash(NewGroups(key, env.group(a.ip), env.group(source))) % 64;
    assert NewBucketsOf(env, key, env.group(source))[k] == NewBucket(env, key, a, source);
  }

  /** All addresses of one group together are spread over at most 8 of the 256 tried buckets. */
  lemma GroupBuckets(env: Env, key: Key, g: Group, addresses: set<Service>)
    requires forall a | a in addresses :: env.group(a.ip) == g
    ensures |set a | a in addresses :: TriedBucket(env, key, a)| <= 8
  {
    hide TriedBucket, TriedBucketsOf;
    var used := set a | a in addresses :: TriedBucket(env, key, a);
    var ids := TriedBucketsOf(env, key, g);
    forall b | b in used ensures b in Members(ids) {
      var a :| a in addresses && TriedBucket(env, key, a) == b;
      TriedBucketIn(env, key, a);
    }
    assert used <= Members(ids);
    SubsetCardinality(used, Members(ids));
    MembersSize(ids);
    EightBuckets(env, key, g);
  }

  lemma EightBuckets(env: Env, key: Key, g: Group)
    ensures |TriedBucketsOf(env, key, g)| == 8 && |NewBucketsOf(env, key, g)| == 64
  {
  }

  /** What sources of one group announce goes to at most 64 of the 1024 new buckets, by the group of the address. */
  lemma SourceBuckets(env: Env, key: Key, a: Service, b: Service, source: NetAddr, source': NetAddr)
    requires env.group(source) == env.group(source')
    ensures NewBucket(env, key, a, source) in Members(NewBucketsOf(env, key, env.group(source')))
    ensures |Members(NewBucketsOf(env, key, env.group(source')))| <= 64
    ensures env.group(a.ip) == env.group(b.ip) ==> NewBucket(env, key, a, source) == NewBucket(env, key, b, source')
  {
    NewBucketIn(env, key, a, source);
    MembersSize(NewBucketsOf(env, key, env.group(source')));
  }

  // ----- slots -----

  /** A set of slots in the first n positions of one bucket. */
  lemma {:induction false} RowSize(slots: set<Slot>, b: int, n: nat)
    requires forall s | s in slots :: s.bucket == b && 0 <= s.pos < n
    ensures |slots| <= n
  {
    if n > 0 {
      var last := Slot(b, n - 1);
      var rest := slots - {last};
      RowSize(rest, b, n - 1);
      OneApart(rest, slots, last);
    } else {
      NoSlot(slots);
    }
  }

  lemma NoSlot(slots: set<Slot>)
    requires forall s | s in slots :: false
    ensures slots == {}
  {
  }

  /** A set of slots in some buckets. */
  lemma {:induction false} GridSize(slots: set<Slot>, buckets: set<int>)
    requires forall s | s in slots :: s.bucket in buckets && 0 <= s.pos < 64
    ensures |slots| <= 64 * |buckets|
    decreases |buckets|
  {
    if buckets == {} {
      NoSlot(slots);
    } else {
      var b := Witness(buckets);
      var row := set s | s in slots && s.bucket == b;
      RowSize(row, b, 64);
      GridSize(slots - row, buckets - {b});
      assert slots == row + (slots - row);
      assert |slots| == |row| + |slots - row|;
      OneApart(buckets - {b}, buckets, b);
    }
  }

  /** The tried slots held by addresses of one group. */
  ghost function HeldBy(env: Env, s: Spec.State, g: Group): set<Slot> {
    set slot | slot in s.triedTab && s.triedTab[slot] in s.info
               && env.group(s.info[s.triedTab[slot]].addr.service.ip) == g
  }

  /** Addresses of one group never hold more than 512 of the 16384 tried slots. */
  lemma GroupShare(env: Env, s: Spec.State, g: Group)
    requires Valid(env, s)
    ensures |HeldBy(env, s, g)| <= 512
  {
    hide TriedBucket, TriedBucketsOf, BucketPosition, RandomOk, AddrOk, NewOk, RefsOk, CountsOk, TimesOk;
    var buckets := Members(TriedBucketsOf(env, s.key, g));
    forall slot | slot in HeldBy(env, s, g) ensures slot.bucket in buckets && 0 <= slot.pos < 64 {
      var a := s.info[s.triedTab[slot]].addr.service;
      TriedBucketIn(env, s.key, a);
      assert slot == TriedSlot(env, s.key, a);
    }
    GridSize(HeldBy(env, s, g), buckets);
    MembersSize(TriedBucketsOf(env, s.key, g));
    EightBuckets(env, s.key, g);
  }

  /** Some source of the group can have some address put there. */
  ghost predicate Claimable(env: Env, key: Key, g: Group, slot: Slot) {
    exists a: Service, source: NetAddr :: env.group(source) == g && slot == NewSlot(env, key, a, source)
  }

  /** Sources of one group can reach no more than 4096 of the 65536 new slots, whatever they announce. */
  lemma SourceShare(env: Env, key: Key, g: Group, slots: set<Slot>)
    requires forall slot | slot in slots :: Claimable(env, key, g, slot)
    ensures |slots| <= 4096
  {
    hide NewBucket, NewBucketsOf, BucketPosition;
    var buckets := Members(NewBucketsOf(env, key, g));
    forall slot | slot in slots ensures slot.bucket in buckets && 0 <= slot.pos < 64 {
      var a: Service, source: NetAddr :| env.group(source) == g && slot == NewSlot(env, key, a, source);
      NewBucketIn(env, key, a, source);
    }
    GridSize(slots, buckets);
    MembersSize(NewBucketsOf(env, key, g));
    EightBuckets(env, key, g);
  }

  /** An entry holds at most 8 new slots, or one tried slot and no new one. */
  lemma EntryShare(env: Env, s: Spec.State, id: int)
    requires Valid(env, s) && id in s.info
    ensures |SlotsOf(s.newTab, id)| <= 8
    ensures s.info[id].inTried ==> SlotsOf(s.newTab, id) == {} && |SlotsOf(s.triedTab, id)| == 1
    ensures !s.info[id].inTried ==> |SlotsOf(s.newTab, id)| >= 1 && SlotsOf(s.triedTab, id) == {}
  {
    hide TriedBucket, BucketPosition, RandomOk, AddrOk, CountsOk, TimesOk;
    if s.info[id].inTried {
      assert SlotsOf(s.triedTab, id) == {TriedSlot(env, s.key, s.info[id].addr.service)};
    }
  }

  // ----- what placement depends on -----

  /** A node whose hash is 1 on one input and 0 on all others. */
  ghost function OneHot(input: HashInput): Env {
    Env(x => if x == input then 1 else 0, _ => [], _ => true, _ => false, _ => false, 0)
  }

  /** The position in a bucket depends on the key, the table, the bucket and the whole address. */
  lemma PositionDepends(key: Key, isNew: bool, b: int, a: Service, key': Key, isNew': bool, b': int, a': Service)
    requires (key, isNew, b, a) != (key', isNew', b', a')
    ensures exists env: Env :: BucketPosition(env, key, isNew, b, a) != BucketPosition(env, key', isNew', b', a')
  {
    var env := OneHot(Position(key, isNew, b, a));
    assert BucketPosition(env, key, isNew, b, a) == 1 && BucketPosition(env, key', isNew', b', a') == 0;
  }

  /** The tried bucket depends on the key and on the whole address, even within a group. */
  lemma TriedBucketDepends(key: Key, a: Service, key': Key, a': Service)
    requires (key, a) != (key', a')
    ensures exists env: Env ::
              env.group(a.ip) == env.group(a'.ip) && TriedBucket(env, key, a) != TriedBucket(env, key', a')
  {
    if key != key' {
      var env := OneHot(TriedGroup(key, [], 0));
      assert TriedBucket(env, key, a) == 1 && TriedBucket(env, key', a') == 0;
    } else {
      var env := Env(x => if x == TriedKey(key, a) || x == TriedGroup(key, [], 1) then 1 else 0,
                     _ => [], _ => true, _ => false, _ => false, 0);
      assert TriedBucket(env, key, a) == 1 && TriedBucket(env, key, a') == 0;
    }
  }

  /** The new bucket depends on the key. */
  lemma NewBucketDepends(key: Key, key': Key, a: Service, source: NetAddr)
    requires key != key'
    ensures exists env: Env :: NewBucket(env, key, a, source) != NewBucket(env, key', a, source)
  {
    var env := OneHot(NewSpread(key, [], 0));
    assert NewBucket(env, key, a, source) == 1 && NewBucket(env, key', a, source) == 0;
  }
}
