/** The sharded bucket store (arvik-middleware/src/rate_limit.rs, `BucketStore`).

    `StoreCall` is one call of `try_consume` as the source runs it, counter-driven sweep included;
    the class `BucketStore` is proved against it. `RateLimitRuns` breaks a call into its lock
    regions, so that a run may interleave the regions of many threads, overlapping on different
    shards, and sweep any shard at any time. Both are compared with one map of buckets that never
    forgets. */
module RateLimitStore {
  import opened TokenBucket

  const SHARDS: nat := 32
  const SWEEP_EVERY: nat := 4096
  const IDLE_TTL: real := 300.0
  const U64: nat := 0x1_0000_0000_0000_0000

  /** A layer's settings and the store's hasher, all fixed for the life of the store. */
  datatype LimiterConfig = LimiterConfig(capacity: nat, window: real, hash: string -> nat)

  /** `RateLimitLayer::new` asserts a window greater than zero. */
  type Limiter = l: LimiterConfig | l.window > 0.0
    witness LimiterConfig(0, 1.0, (s: string) => 0)

  type Table = map<string, BucketState>

  datatype ShardState = ShardState(buckets: Table, calls: nat)

  function ShardOf(l: Limiter, key: string): (i: nat)
    ensures i < SHARDS
  {
    l.hash(key) % SHARDS
  }

  /** The `retain` of the idle sweep, which reads the clock again for each bucket: `clock(k)` is the
      reading for the bucket of key k. */
  function SweepTable(m: Table, clock: string -> real): Table {
    map k | k in m && Elapsed(clock(k), m[k].lastSeen) < IDLE_TTL :: m[k]
  }

  function BucketFor(capacity: nat, window: real, m: Table, key: string, now: real): BucketState
    requires window > 0.0
  {
    if key in m then m[key] else NewBucket(capacity, window, now)
  }

  function CallTable(capacity: nat, window: real, m: Table, key: string, now: real): (Table, Outcome)
    requires window > 0.0
  {
    var (b, out) := Consume(BucketFor(capacity, window, m, key, now), now);
    (m[key := b], out)
  }

  lemma CallCases(capacity: nat, window: real, m: Table, key: string, now: real)
    requires window > 0.0
    ensures var b := if key in m then m[key] else NewBucket(capacity, window, now);
      CallTable(capacity, window, m, key, now) == (m[key := Consume(b, now).0], Consume(b, now).1)
  {
    hide Consume, NewBucket;
  }

  /** The source reads the clock once to create a bucket and again to use it. The refill is capped,
      so an earlier creation reading changes nothing. */
  lemma CreationReadingIsInvisible(capacity: nat, window: real, created: real, now: real)
    requires window > 0.0 && created <= now
    ensures Consume(NewBucket(capacity, window, created), now) == Consume(NewBucket(capacity, window, now), now)
  {
    MulMono(0.0, now - created, Rate(capacity, window));
  }

  // ---------------------------------------------------------------- one call, as the source runs it

  /** A call: the key, the readings of the sweep it may run, the reading at which a new bucket is
      made, and the reading with which the bucket is used. */
  datatype Readings = Readings(key: string, clock: string -> real, created: real, at: real)

  type Request = r: Readings | r.created <= r.at witness Readings("", _ => 0.0, 0.0, 0.0)

  function ShardCall(capacity: nat, window: real, s: ShardState, r: Request): (ShardState, Outcome)
    requires window > 0.0
  {
    var swept := if s.calls % SWEEP_EVERY == 0 then SweepTable(s.buckets, r.clock) else s.buckets;
    var (m, out) := CallTable(capacity, window, swept, r.key, r.at);
    (ShardState(m, (s.calls + 1) % U64), out)
  }

  /** What a call leaves in its shard: its own bucket, and of the others all, but for every 4096th call,
      which leaves those seen less than 300 seconds ago. */
  lemma CallKeeps(capacity: nat, window: real, s: ShardState, r: Request)
    requires window > 0.0
    ensures ShardCall(capacity, window, s, r).0.calls == (s.calls + 1) % 0x1_0000_0000_0000_0000
    ensures r.key in ShardCall(capacity, window, s, r).0.buckets
    ensures forall k :: k != r.key ==>
      (k in ShardCall(capacity, window, s, r).0.buckets
       <==> k in s.buckets && (s.calls % 4096 == 0 ==> Elapsed(r.clock(k), s.buckets[k].lastSeen) < 300.0))
  {
    hide CallTable;
    var swept := if s.calls % SWEEP_EVERY == 0 then SweepTable(s.buckets, r.clock) else s.buckets;
    CallCases(capacity, window, swept, r.key, r.at);
  }

  type StoreState = s: seq<ShardState> | |s| == SHARDS
    witness seq(SHARDS, _ => ShardState(map[], 0))

  const EMPTY_STORE: StoreState := seq(SHARDS, _ => ShardState(map[], 0))

  function StoreCall(l: Limiter, s: StoreState, r: Request): (StoreState, Outcome) {
    var i := ShardOf(l, r.key);
    var (sh, out) := ShardCall(l.capacity, l.window, s[i], r);
    (s[i := sh], out)
  }

  /** A call changes one of 32 shards, the one its key hashes to, and leaves its key there. */
  lemma OneShardChanges(l: Limiter, s: StoreState, r: Request)
    ensures var s' := StoreCall(l, s, r).0;
      && (forall j :: 0 <= j < 32 && j != l.hash(r.key) % 32 ==> s'[j] == s[j])
      && r.key in s'[l.hash(r.key) % 32].buckets
  {
    hide ShardCall;
    CallKeeps(l.capacity, l.window, s[ShardOf(l, r.key)], r);
  }

  class Shard {
    var buckets: map<string, Bucket>
    var calls: nat

    constructor ()
      ensures buckets == map[] && calls == 0
    {
      buckets := map[];
      calls := 0;
    }

    function State(): ShardState
      reads this, buckets.Values
    {
      ShardState(map k | k in buckets :: buckets[k].State(), calls)
    }

    ghost predicate Distinct()
      reads this
    {
      forall k, k' :: k in buckets && k' in buckets && buckets[k] == buckets[k'] ==> k == k'
    }

    /** `shard.buckets.lock().retain(..)` */
    method Sweep(clock: string -> real)
      requires Distinct()
      modifies this
      ensures Distinct()
      ensures State() == ShardState(SweepTable(old(State()).buckets, clock), old(calls))
      ensures forall k :: k in buckets ==> k in old(buckets) && buckets[k] == old(buckets)[k]
      ensures forall k :: k in old(buckets) ==>
        (k in buckets <==> Elapsed(clock(k), old(State()).buckets[k].lastSeen) < 300.0)
    {
      buckets := map k | k in buckets && Elapsed(clock(k), buckets[k].lastSeen) < IDLE_TTL :: buckets[k];
    }

    /** `map.get_mut(key)` */
    method UseBucket(key: string, now: real) returns (r: Outcome)
      requires Distinct() && key in buckets
      modifies buckets.Values
      ensures Distinct()
      ensures var (next, out) := Consume(old(State()).buckets[key], now);
        State().buckets == old(State()).buckets[key := next] && r == out
    {
      hide TokenBucket.Consume;
      r := buckets[key].TryConsume(now);
    }

    /** A new bucket, used and then inserted. */
    method AddBucket(key: string, capacity: nat, window: real, created: real, now: real) returns (r: Outcome)
      requires Distinct() && window > 0.0 && created <= now
      modifies this`buckets
      ensures Distinct()
      ensures var (next, out) := Consume(NewBucket(capacity, window, now), now);
        State().buckets == old(State()).buckets[key := next] && r == out
      ensures forall k :: k in buckets ==> fresh(buckets[k]) || (k in old(buckets) && buckets[k] == old(buckets)[k])
    {
      hide TokenBucket.Consume, NewBucket;
      CreationReadingIsInvisible(capacity, window, created, now);
      var bucket := new Bucket(capacity, window, created);
      r := bucket.TryConsume(now);
      buckets := buckets[key := bucket];
    }

    /** The existing bucket, or a new one. */
    method Take(key: string, capacity: nat, window: real, created: real, now: real) returns (r: Outcome)
      requires Distinct() && window > 0.0 && created <= now
      modifies this`buckets, buckets.Values
      ensures Distinct()
      ensures (State().buckets, r) == CallTable(capacity, window, old(State()).buckets, key, now)
      ensures forall k :: k in buckets ==> fresh(buckets[k]) || (k in old(buckets) && buckets[k] == old(buckets)[k])
    {
      hide TokenBucket.Consume, NewBucket, CallTable;
      CallCases(capacity, window, State().buckets, key, now);
      if key in buckets {
        r := UseBucket(key, now);
      } else {
        r := AddBucket(key, capacity, window, created, now);
      }
    }

    /** The part of `try_consume` that touches the shard. */
    method Call(r: Request, capacity: nat, window: real) returns (out: Outcome)
      requires Distinct() && window > 0.0
      modifies this, buckets.Values
      ensures Distinct()
      ensures (State(), out) == ShardCall(capacity, window, old(State()), r)
      ensures forall k :: k in buckets ==> fresh(buckets[k]) || (k in old(buckets) && buckets[k] == old(buckets)[k])
    {
      hide TokenBucket.Consume, SweepTable, CallTable;
      var n := calls;
      calls := (calls + 1) % U64;
      assert State().buckets == old(State()).buckets;
      if n % SWEEP_EVERY == 0 {
        Sweep(r.clock);
      }
      out := Take(r.key, capacity, window, r.created, r.at);
    }
  }

  class BucketStore {
    const shards: seq<Shard>
    const hash: string -> nat

    ghost predicate Valid()
      reads shards
    {
      && |shards| == SHARDS
      && (forall i, j :: 0 <= i < j < |shards| ==> shards[i] != shards[j])
      && (forall i :: 0 <= i < |shards| ==> shards[i].Distinct())
      && (forall i, j, k, k' :: 0 <= i < j < |shards| && k in shards[i].buckets && k' in shards[j].buckets
                           ==> shards[i].buckets[k] != shards[j].buckets[k'])
    }

    ghost function Buckets(): set<Bucket>
      reads shards
    {
      set i, k | 0 <= i < |shards| && k in shards[i].buckets :: shards[i].buckets[k]
    }

    ghost function State(): StoreState
      requires Valid()
      reads shards, Buckets()
    {
      seq(SHARDS, i requires 0 <= i < SHARDS && Valid() reads shards, Buckets() => shards[i].State())
    }

    constructor (hash: string -> nat)
      ensures Valid() && fresh(shards) && this.hash == hash
      ensures State() == EMPTY_STORE && Buckets() == {}
    {
      this.hash := hash;
      var made: seq<Shard> := [];
      for i := 0 to SHARDS
        invariant |made| == i
        invariant fresh(made)
        invariant forall j :: 0 <= j < i ==> made[j].buckets == map[] && made[j].calls == 0
        invariant forall j, k :: 0 <= j < k < i ==> made[j] != made[k]
      {
        var s := new Shard();
        made := made + [s];
      }
      shards := made;
    }

    method TryConsume(r: Request, capacity: nat, window: real) returns (out: Outcome)
      requires Valid() && window > 0.0
      modifies shards, Buckets()
      ensures Valid() && fresh(Buckets() - old(Buckets()))
      ensures (State(), out) == StoreCall(LimiterConfig(capacity, window, hash), old(State()), r)
    {
      hide ShardCall;
      var i := hash(r.key) % |shards|;
      out := shards[i].Call(r, capacity, window);
      assert forall j :: 0 <= j < |shards| && j != i ==> shards[j].buckets == old(shards[j].buckets);
      assert forall j :: 0 <= j < |shards| && j != i ==> shards[j].State() == old(shards[j].State());
      assert State() == old(State())[i := shards[i].State()];
    }
  }
}
