/** The address manager's data: addresses, per-address records, the two bucket
  * tables, and the snapshot of all indexes taken together.
  */
module AddrManTypes {

  const TRIED_BUCKETS_PER_GROUP := 8
  const NEW_BUCKETS_PER_SOURCE_GROUP := 64
  const TRIED_BUCKET_COUNT := 256
  const NEW_BUCKET_COUNT := 1024
  const BUCKET_SIZE := 64
  const NEW_BUCKETS_PER_ADDRESS := 8
  const TRIED_COLLISION_SIZE := 10

  // Durations, in seconds.
  const MINUTE := 60
  const HOUR := 3600
  const DAY := 86400
  const HORIZON := 30 * DAY
  const RETRIES := 3
  const MAX_FAILURES := 10
  const MIN_FAIL := 7 * DAY
  const REPLACEMENT := 4 * HOUR
  const TEST_WINDOW := 40 * MINUTE

  datatype Option<T> = None | Some(value: T)

  type Id = int
  type Key = nat
  type Network = nat
  type Bytes = seq<nat>

  /** A network address without a port, and the service (address and port) entries are keyed by. */
  type NetAddr = Bytes
  datatype Service = Service(ip: NetAddr, port: nat)

  /** Service flags, as the set of bits that are on. */
  type Flags = set<nat>

  /** An address as gossiped: the service, its service flags and the time it was last seen. */
  datatype Address = Address(service: Service, flags: Flags, time: int)

  /** What is recorded about one known address. */
  datatype Info = Info(
    address: Address,
    source: NetAddr,
    lastTry: int,
    lastCountAttempt: int,
    lastSuccess: int,
    attempts: int,
    refCount: int,
    inTried: bool,
    randomPos: int)
  {
    function Service(): Service {
      address.service
    }

    /** Bad enough that the entry may be dropped to make room. */
    predicate IsTerrible(now: int) {
      if now - lastTry <= MINUTE then false
      else if address.time > now + 10 * MINUTE then true
      else if now - address.time > HORIZON then true
      else if lastSuccess == 0 && attempts >= RETRIES then true
      else now - lastSuccess > MIN_FAIL && attempts >= MAX_FAILURES
    }
  }

  function FreshInfo(a: Address, source: NetAddr, randomPos: int): Info {
    Info(a, source, 0, 0, 0, 0, 0, false, randomPos)
  }

  datatype Slot = Slot(bucket: nat, pos: nat)

  type TriedBucketIndex = b: nat | b < TRIED_BUCKET_COUNT
  type NewBucketIndex = b: nat | b < NEW_BUCKET_COUNT
  type PosIndex = p: nat | p < BUCKET_SIZE

  /** Everything the address manager takes from elsewhere, as arbitrary functions: the
    * keyed bucket and position functions and the classification of addresses.
    */
  datatype Env = Env(
    triedBucket: (Key, Service) -> TriedBucketIndex,
    newBucket: (Key, Service, NetAddr) -> NewBucketIndex,
    position: (Key, bool, nat, Service) -> PosIndex,
    networkOf: NetAddr -> Network,
    netClassOf: NetAddr -> Network,
    routable: NetAddr -> bool,
    valid: NetAddr -> bool,
    asmapVersion: nat)
  {
    /** The one place in the tried table where an address may live. */
    function Home(key: Key, a: Service): Slot {
      Slot(triedBucket(key, a), position(key, false, triedBucket(key, a), a))
    }

    /** The place in the new table an address gets when it is learnt from `source`. */
    function NewSlot(key: Key, a: Service, source: NetAddr): Slot {
      Slot(newBucket(key, a, source), position(key, true, newBucket(key, a, source), a))
    }
  }

  /** What the bucket hash is fed. */
  datatype HashField = SecretField(key: Key) | BytesField(bytes: Bytes) | NumberField(n: nat)

  /** The environment the program runs in: buckets and positions computed from a cheap
    * hash of the secret key, the network groups and the address bytes.
    */
  function HashedEnv(cheapHash: seq<HashField> -> nat, groupOf: NetAddr -> Bytes, keyBytes: Service -> Bytes,
                     base: Env): Env
  {
    base.(
      triedBucket := (key: Key, a: Service) =>
        var hash1 := cheapHash([SecretField(key), BytesField(keyBytes(a))]);
        cheapHash([SecretField(key), BytesField(groupOf(a.ip)),
                   NumberField(hash1 % TRIED_BUCKETS_PER_GROUP)]) % TRIED_BUCKET_COUNT,
      newBucket := (key: Key, a: Service, source: NetAddr) =>
        var hash1 := cheapHash([SecretField(key), BytesField(groupOf(a.ip)), BytesField(groupOf(source))]);
        cheapHash([SecretField(key), BytesField(groupOf(source)),
                   NumberField(hash1 % NEW_BUCKETS_PER_SOURCE_GROUP)]) % NEW_BUCKET_COUNT,
      position := (key: Key, inNew: bool, bucket: nat, a: Service) =>
        cheapHash([SecretField(key), BytesField([if inNew then 'N' as nat else 'K' as nat]),
                   NumberField(bucket), BytesField(keyBytes(a))]) % BUCKET_SIZE)
  }

  /** The buckets, out of `count`, that a group reaches with `n` different numbers. */
  ghost function Reach(cheapHash: seq<HashField> -> nat, key: Key, group: Bytes, n: nat, count: nat): (r: set<nat>)
    requires count > 0
    ensures |r| <= n
    ensures forall k :: 0 <= k < n ==> cheapHash([SecretField(key), BytesField(group), NumberField(k)]) % count in r
  {
    if n == 0 then {}
    else
      Reach(cheapHash, key, group, n - 1, count)
      + {cheapHash([SecretField(key), BytesField(group), NumberField(n - 1)]) % count}
  }

  /** Where the program puts addresses: those of one group share at most 8 tried buckets, and
    * what one source group announces goes into at most 64 new buckets.
    */
  lemma BucketsShared(cheapHash: seq<HashField> -> nat, groupOf: NetAddr -> Bytes, keyBytes: Service -> Bytes, base: Env,
                      key: Key, group: Bytes) returns (tried: set<nat>, new': set<nat>)
    ensures |tried| <= 8 && |new'| <= 64
    ensures var e := HashedEnv(cheapHash, groupOf, keyBytes, base);
      && (forall a: Service :: groupOf(a.ip) == group ==> e.triedBucket(key, a) in tried)
      && (forall a: Service, source :: groupOf(source) == group ==> e.newBucket(key, a, source) in new')
  {
    tried := Reach(cheapHash, key, group, 8, 256);
    new' := Reach(cheapHash, key, group, 64, 1024);
  }

  predicate InNewRange(slot: Slot) {
    slot.bucket < NEW_BUCKET_COUNT && slot.pos < BUCKET_SIZE
  }

  predicate InTriedRange(slot: Slot) {
    slot.bucket < TRIED_BUCKET_COUNT && slot.pos < BUCKET_SIZE
  }

  datatype Counts = Counts(nNew: int, nTried: int)

  /** A table maps its occupied slots to the ids stored there. */
  type Table = map<Slot, Id>

  /** All of the address manager's indexes at one moment. */
  datatype State = State(
    key: Key,
    idCount: nat,
    info: map<Id, Info>,
    addr: map<Service, Id>,
    random: seq<Id>,
    nNew: int,
    nTried: int,
    newTable: Table,
    triedTable: Table,
    counts: map<Network, Counts>,
    lastGood: int,
    collisions: set<Id>)
  {
    function CountsOf(net: Network): Counts {
      if net in counts then counts[net] else Counts(0, 0)
    }

    function HomeOf(e: Env, id: Id): Slot
      requires id in info
    {
      e.Home(key, info[id].Service())
    }

    function NetworkOf(e: Env, id: Id): Network
      requires id in info
    {
      e.networkOf(info[id].Service().ip)
    }
  }

  /** The slots of a table that hold `id`. */
  function SlotsOf(t: Table, id: Id): set<Slot> {
    set slot | slot in t && t[slot] == id
  }

  function EmptyState(key: Key): State {
    State(key, 0, map[], map[], [], 0, 0, map[], map[], map[], 1, {})
  }
}
