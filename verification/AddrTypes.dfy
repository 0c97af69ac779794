/** Addresses, address records and the bucket hashing of the address manager. */
module AddrTypes {

  // ----- constants (src/addrman.cpp:28-46, src/addrman_impl.h:26-33) -----

  const TRIED_BUCKETS_PER_GROUP := 8
  const NEW_BUCKETS_PER_SOURCE_GROUP := 64
  const NEW_BUCKETS_PER_ADDRESS := 8
  const TRIED_BUCKET_COUNT := 256
  const NEW_BUCKET_COUNT := 1024
  const BUCKET_SIZE := 64
  const SET_TRIED_COLLISION_SIZE := 10

  const MINUTE := 60
  const HOUR := 3600
  const DAY := 86400
  const HORIZON := 30 * DAY
  const RETRIES := 3
  const MAX_FAILURES := 10
  const MIN_FAIL := 7 * DAY
  const REPLACEMENT := 4 * HOUR
  const TEST_WINDOW := 40 * MINUTE

  // ----- addresses -----

  datatype Network = Unroutable | Ipv4 | Ipv6 | Onion | I2p | Cjdns | Internal

  datatype NetAddr = NetAddr(net: Network, bytes: seq<bv8>)

  datatype Service = Service(ip: NetAddr, port: nat)

  /** CAddress: a service with the time it was last seen and its service flags. */
  datatype Address = Address(service: Service, time: int, services: bv64)

  /** AddrInfo: an address with what the manager remembers about it. Times are in seconds. */
  datatype AddrInfo = AddrInfo(
    addr: Address,
    source: NetAddr,
    lastTry: int,
    lastCountAttempt: int,
    lastSuccess: int,
    attempts: int,
    refCount: int,
    inTried: bool,
    randomPos: int)

  function NewAddrInfo(addr: Address, source: NetAddr): AddrInfo {
    AddrInfo(addr, source, 0, 0, 0, 0, 0, false, -1)
  }

  // ----- hashing -----

  type Key = nat      // a 256-bit secret; 0 is the null key
  type Group = seq<bv8>

  /** What the bucket functions feed to the cheap hash. */
  datatype HashInput =
    | TriedKey(key: Key, service: Service)
    | TriedGroup(key: Key, group: Group, spread: nat)
    | NewGroups(key: Key, group: Group, sourceGroup: Group)
    | NewSpread(key: Key, sourceGroup: Group, spread: nat)
    | Position(key: Key, isNew: bool, bucket: int, service: Service)

  /**
    What the manager takes from outside: the hash, the netgroup manager and the
    address classification. Every result holds for every choice of these.
   */
  datatype Env = Env(
    cheapHash: HashInput -> nat,
    group: NetAddr -> Group,
    valid: NetAddr -> bool,
    reserved: NetAddr -> bool,
    linkedIpv4: NetAddr -> bool,
    asmapVersion: nat)

  /** A position in one of the two tables. */
  datatype Slot = Slot(bucket: int, pos: int)

  predicate InTriedTable(s: Slot) { 0 <= s.bucket < TRIED_BUCKET_COUNT && 0 <= s.pos < BUCKET_SIZE }

  predicate InNewTable(s: Slot) { 0 <= s.bucket < NEW_BUCKET_COUNT && 0 <= s.pos < BUCKET_SIZE }

  function TriedBucket(env: Env, key: Key, a: Service): (b: int)
    ensures 0 <= b < TRIED_BUCKET_COUNT
  {
    var hash1 := env.cheapHash(TriedKey(key, a));
    var hash2 := env.cheapHash(TriedGroup(key, env.group(a.ip), hash1 % TRIED_BUCKETS_PER_GROUP));
    hash2 % TRIED_BUCKET_COUNT
  }

  function NewBucket(env: Env, key: Key, a: Service, source: NetAddr): (b: int)
    ensures 0 <= b < NEW_BUCKET_COUNT
  {
    var hash1 := env.cheapHash(NewGroups(key, env.group(a.ip), env.group(source)));
    var hash2 := env.cheapHash(NewSpread(key, env.group(source), hash1 % NEW_BUCKETS_PER_SOURCE_GROUP));
    hash2 % NEW_BUCKET_COUNT
  }

  function BucketPosition(env: Env, key: Key, isNew: bool, bucket: int, a: Service): (p: int)
    ensures 0 <= p < BUCKET_SIZE
  {
    env.cheapHash(Position(key, isNew, bucket, a)) % BUCKET_SIZE
  }

  /** The one slot of the tried table an address may occupy. */
  function TriedSlot(env: Env, key: Key, a: Service): (s: Slot)
    ensures InTriedTable(s)
  {
    var b := TriedBucket(env, key, a);
    Slot(b, BucketPosition(env, key, false, b, a))
  }

  /** The one slot of new bucket `b` an address may occupy. */
  function SlotInBucket(env: Env, key: Key, a: Service, b: int): (s: Slot)
    ensures s.bucket == b && 0 <= s.pos < BUCKET_SIZE
  {
    Slot(b, BucketPosition(env, key, true, b, a))
  }

  /** The new slot an address heard from `source` goes to. */
  function NewSlot(env: Env, key: Key, a: Service, source: NetAddr): (s: Slot)
    ensures InNewTable(s)
  {
    SlotInBucket(env, key, a, NewBucket(env, key, a, source))
  }

  // ----- classification (src/netaddress.cpp:462-505, 674-690) -----

  predicate IsRoutable(env: Env, a: NetAddr) {
    env.valid(a) && !env.reserved(a) && !a.net.Internal?
  }

  function GetNetwork(env: Env, a: NetAddr): Network {
    if a.net.Internal? then Internal else if !IsRoutable(env, a) then Unroutable else a.net
  }

  function GetNetClass(env: Env, a: NetAddr): Network {
    if a.net.Internal? then Internal
    else if !IsRoutable(env, a) then Unroutable
    else if env.linkedIpv4(a) then Ipv4
    else a.net
  }

  /** The class is IPv6 only for such addresses, and IPv4 also for those that lead to an IPv4 peer. */
  lemma NetworkClass(env: Env, a: NetAddr)
    ensures GetNetClass(env, a) == Ipv6 <==> a.net.Ipv6? && IsRoutable(env, a) && !env.linkedIpv4(a)
    ensures GetNetClass(env, a) == Ipv4 <==> (a.net.Ipv4? || env.linkedIpv4(a)) && IsRoutable(env, a)
    ensures GetNetwork(env, a) == Ipv6 <==> a.net.Ipv6? && IsRoutable(env, a)
    ensures GetNetwork(env, a) == Internal <==> a.net.Internal?
  {
  }

  /** Whether an entry's statistics are bad enough for it to be overwritten. */
  predicate IsTerrible(i: AddrInfo, now: int) {
    if now - i.lastTry <= MINUTE then false
    else if i.addr.time > now + 10 * MINUTE then true
    else if now - i.addr.time > HORIZON then true
    else if i.lastSuccess == 0 && i.attempts >= RETRIES then true
    else now - i.lastSuccess > MIN_FAIL && i.attempts >= MAX_FAILURES
  }
}
