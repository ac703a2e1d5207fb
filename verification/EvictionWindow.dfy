/** When eviction can be observed. A window longer than the idle TTL lets the store forget a bucket
    that is not full yet; the run built here drains a bucket and comes back when the next sweep of
    its shard is due. */
module EvictionWindow {
  import opened TokenBucket
  import opened RateLimitStore
  import opened RateLimitRuns

  function Repeat<T>(x: T, n: nat): (s: seq<T>)
    ensures |s| == n && forall i :: 0 <= i < n ==> s[i] == x
  {
    seq(n, _ => x)
  }

  lemma RepeatTail<T>(x: T, n: nat)
    requires n > 0
    ensures Repeat(x, n)[0] == x && Repeat(x, n)[1..] == Repeat(x, n - 1)
  {
  }

  /** A call in which every reading of the clock is t. */
  function At(key: string, t: real): Request { Readings(key, _ => t, t, t) }

  lemma {:induction false} StoreRunAppend(l: Limiter, s: StoreState, a: seq<Request>, b: seq<Request>)
    ensures StoreRun(l, s, a + b) == StoreRun(l, s, a) + StoreRun(l, StoreAfter(l, s, a), b)
    decreases |a|
  {
    hide StoreCall;
    if a == [] {
      assert a + b == b;
    } else {
      assert (a + b)[0] == a[0] && (a + b)[1..] == a[1..] + b;
      StoreRunAppend(l, StoreCall(l, s, a[0]).0, a[1..], b);
    }
  }

  /** `key` holds bucket `b`, last used at t, in a shard that has counted `calls` calls. */
  ghost predicate Holds(l: Limiter, s: StoreState, key: string, b: BucketState, calls: nat) {
    var sh := s[ShardOf(l, key)];
    key in sh.buckets && sh.buckets[key] == b && sh.calls == calls % U64
  }

  lemma HoldsCall(l: Limiter, s: StoreState, key: string, b: BucketState, calls: nat, t: real)
    requires Holds(l, s, key, b, calls) && b.lastSeen == t
    ensures StoreCall(l, s, At(key, t)).1 == Consume(b, t).1
    ensures Holds(l, StoreCall(l, s, At(key, t)).0, key, Consume(b, t).0, calls + 1)
  {
    hide Consume;
    assert (calls % U64 + 1) % U64 == (calls + 1) % U64;
  }

  /** Calls made at one instant reach the bucket untouched by the sweeps they may trigger. */
  lemma {:induction false} SameInstantCalls(
    l: Limiter, s: StoreState, key: string, b: BucketState, calls: nat, t: real, n: nat)
    requires Holds(l, s, key, b, calls) && b.lastSeen == t
    ensures StoreRun(l, s, Repeat(At(key, t), n)) == Run(b, Repeat(t, n))
    ensures Holds(l, StoreAfter(l, s, Repeat(At(key, t), n)), key, After(b, Repeat(t, n)), calls + n)
    ensures After(b, Repeat(t, n)).lastSeen == t
    decreases n
  {
    if n > 0 {
      HoldsCall(l, s, key, b, calls, t);
      var b' := Consume(b, t).0;
      assert b'.lastSeen == t;
      hide Consume, Holds, StoreCall;
      RepeatTail(t, n);
      RepeatTail(At(key, t), n);
      SameInstantCalls(l, StoreCall(l, s, At(key, t)).0, key, b', calls + 1, t, n - 1);
    }
  }

  /** n calls at one instant take n whole tokens or leave less than one. */
  lemma {:induction false} SameInstantTokens(b: BucketState, capacity: nat, rate: real, t: real, n: nat)
    requires Sound(b, capacity, rate) && b.lastRefill == t
    ensures Sound(After(b, Repeat(t, n)), capacity, rate) && After(b, Repeat(t, n)).lastRefill == t
    ensures b.tokens >= n as real ==> After(b, Repeat(t, n)).tokens == b.tokens - n as real
    ensures After(b, Repeat(t, n)).tokens < 1.0 || After(b, Repeat(t, n)).tokens == b.tokens - n as real
    decreases n
  {
    if n > 0 {
      RepeatTail(t, n);
      var b' := Consume(b, t).0;
      assert b'.tokens == if b.tokens >= 1.0 then b.tokens - 1.0 else b.tokens;
      SameInstantTokens(b', capacity, rate, t, n - 1);
    }
  }

  lemma {:induction false} DrainToZero(b: BucketState, capacity: nat, rate: real, t: real, m: nat, n: nat)
    requires Sound(b, capacity, rate) && b.lastRefill == t
    requires b.tokens == m as real && m <= n
    ensures After(b, Repeat(t, n)).tokens == 0.0
    decreases n
  {
    if n > 0 {
      RepeatTail(t, n);
      var b' := Consume(b, t).0;
      DrainToZero(b', capacity, rate, t, if m == 0 then 0 else m - 1, n - 1);
    }
  }

  function Drain(l: Limiter): nat { SWEEP_EVERY * l.capacity }

  /** Drain the bucket at time 0, with enough calls that the next one sweeps, then ask for a whole
      capacity's worth when the TTL has passed. */
  function EarlyReturn(l: Limiter, key: string): seq<Request> {
    Repeat(At(key, 0.0), Drain(l)) + Repeat(At(key, IDLE_TTL), l.capacity)
  }

  lemma {:induction false} RepeatInOrder(
    l: Limiter, key: string, last: Clocks, t: real, n: nat, rest: seq<Request>)
    requires n > 0 && last[ShardOf(l, key)] <= t
    requires RequestsFrom(l, last[ShardOf(l, key) := t], rest)
    ensures RequestsFrom(l, last, Repeat(At(key, t), n) + rest)
    decreases n
  {
    hide ShardOf;
    var i := ShardOf(l, key);
    var all := Repeat(At(key, t), n) + rest;
    RepeatTail(At(key, t), n);
    assert all[0] == At(key, t) && all[1..] == Repeat(At(key, t), n - 1) + rest;
    if n == 1 {
      assert all[1..] == rest;
    } else {
      assert last[i := t][i := t] == last[i := t];
      RepeatInOrder(l, key, last[i := t], t, n - 1, rest);
    }
  }

  lemma EarlyReturnInOrder(l: Limiter, key: string)
    requires l.capacity >= 1
    ensures RequestsInOrder(l, EarlyReturn(l, key))
  {
    var start: Clocks := seq(SHARDS, _ => 0.0);
    var i := ShardOf(l, key);
    var again := Repeat(At(key, IDLE_TTL), l.capacity);
    assert Drain(l) > 0;
    hide ShardOf, RequestsFrom, At, Drain;
    assert RequestsFrom(l, start[i := 0.0][i := IDLE_TTL], []) by { NoRequests(l, start[i := 0.0][i := IDLE_TTL]); }
    RepeatInOrder(l, key, start[i := 0.0], IDLE_TTL, l.capacity, []);
    assert again + [] == again;
    RepeatInOrder(l, key, start, 0.0, Drain(l), again);
  }

  lemma NoRequests(l: Limiter, last: Clocks)
    ensures RequestsFrom(l, last, [])
  {
  }

  lemma {:induction false} IdealCallsAreRun(l: Limiter, m: Table, key: string, rs: seq<Request>, times: seq<real>)
    requires |rs| == |times| && forall i :: 0 <= i < |rs| ==> rs[i] == At(key, times[i])
    ensures IdealCalls(l, m, rs)
         == if key in m then Run(m[key], times) else FreshRun(l.capacity, l.window, times)
    decreases |rs|
  {
    hide Consume, NewBucket;
    if rs != [] {
      IdealCallsAreRun(l, CallTable(l.capacity, l.window, m, key, times[0]).0, key, rs[1..], times[1..]);
    }
  }

  lemma RefusedBelowOne(b: BucketState, capacity: nat, rate: real)
    requires Sound(b, capacity, rate) && b.tokens < 1.0
    ensures !Consume(b, b.lastRefill).1.Allowed?
  {
  }

  /** From empty, `IDLE_TTL` seconds bring less than the capacity back. */
  lemma PartialRefill(b: BucketState, capacity: nat, rate: real, window: real)
    requires capacity >= 1 && window > IDLE_TTL && rate * window == capacity as real && rate > 0.0
    requires Sound(b, capacity, rate) && b.lastRefill == 0.0 && b.tokens == 0.0
    ensures Consume(b, IDLE_TTL).1.Allowed? ==> Consume(b, IDLE_TTL).0.tokens < (capacity - 1) as real
    ensures !Consume(b, IDLE_TTL).1.Allowed? ==> Consume(b, IDLE_TTL).0.tokens < 1.0
    ensures capacity == 1 ==> !Consume(b, IDLE_TTL).1.Allowed?
  {
    assert rate * IDLE_TTL < rate * window;
  }

  lemma RefillFallsShort(b: BucketState, capacity: nat, rate: real, window: real)
    requires capacity >= 1 && window > IDLE_TTL && rate * window == capacity as real && rate > 0.0
    requires Sound(b, capacity, rate) && b.lastRefill == 0.0 && b.tokens == 0.0
    ensures !Consume(After(b, Repeat(IDLE_TTL, capacity - 1)), IDLE_TTL).1.Allowed?
  {
    hide Consume;
    PartialRefill(b, capacity, rate, window);
    var c1 := Consume(b, IDLE_TTL);
    ConsumeKeepsSound(b, capacity, rate, IDLE_TTL);
    if capacity > 1 {
      RepeatTail(IDLE_TTL, capacity - 1);
      SameInstantTokens(c1.0, capacity, rate, IDLE_TTL, capacity - 2);
      var last := After(c1.0, Repeat(IDLE_TTL, capacity - 2));
      assert After(b, Repeat(IDLE_TTL, capacity - 1)) == last;
      RefusedBelowOne(last, capacity, rate);
    } else {
      assert Repeat(IDLE_TTL, 0) == [];
    }
  }

  /** The last of a run's outcomes is what its last call gets. */
  lemma LastOutcome(b: BucketState, times: seq<real>)
    requires times != []
    ensures Run(b, times)[|times| - 1]
         == Consume(After(b, times[..|times| - 1]), times[|times| - 1]).1
  {
    hide Consume;
    var n := |times| - 1;
    RunSplit(b, times, n);
    assert Run(b, times)[n..][0] == Run(b, times)[n] && times[n..][0] == times[n];
  }

  lemma {:induction false} AfterAppend(b: BucketState, xs: seq<real>, ys: seq<real>)
    ensures After(b, xs + ys) == After(After(b, xs), ys)
    decreases |xs|
  {
    hide Consume;
    if xs == [] {
      assert xs + ys == ys;
    } else {
      assert (xs + ys)[1..] == xs[1..] + ys;
      AfterAppend(Consume(b, xs[0]).0, xs[1..], ys);
    }
  }

  /** The instants of `EarlyReturn`. */
  function Instants(l: Limiter): seq<real> { Repeat(0.0, Drain(l)) + Repeat(IDLE_TTL, l.capacity) }

  lemma EarlyReturnParts(l: Limiter, key: string)
    requires l.capacity >= 1
    ensures |EarlyReturn(l, key)| == |Instants(l)| == Drain(l) + l.capacity && Instants(l)[0] == 0.0
    ensures forall i :: 0 <= i < |Instants(l)| ==> EarlyReturn(l, key)[i] == At(key, Instants(l)[i])
    ensures Instants(l)[|Instants(l)| - 1] == IDLE_TTL
    ensures Instants(l)[..|Instants(l)| - 1] == Repeat(0.0, Drain(l)) + Repeat(IDLE_TTL, l.capacity - 1)
    ensures l.capacity <= Drain(l)
  {
    hide At;
  }

  lemma IdealRunOfEarlyReturn(l: Limiter, key: string)
    requires l.capacity >= 1
    ensures IdealCalls(l, map[], EarlyReturn(l, key)) == Run(NewBucket(l.capacity, l.window, 0.0), Instants(l))
  {
    hide EarlyReturn, Instants, At, Run, IdealCalls, NewBucket;
    EarlyReturnParts(l, key);
    IdealCallsAreRun(l, map[], key, EarlyReturn(l, key), Instants(l));
  }

  /** The never-swept bucket refuses the last request of `EarlyReturn`. */
  lemma IdealRefusesLast(l: Limiter, key: string)
    requires l.capacity >= 1 && l.window > IDLE_TTL
    ensures !IdealCalls(l, map[], EarlyReturn(l, key))[|EarlyReturn(l, key)| - 1].Allowed?
  {
    hide *;
    EarlyReturnParts(l, key);
    IdealRunOfEarlyReturn(l, key);
    DrainedBucket(l.capacity, l.window, Drain(l));
    var b := NewBucket(l.capacity, l.window, 0.0);
    LastOutcome(b, Instants(l));
    AfterAppend(b, Repeat(0.0, Drain(l)), Repeat(IDLE_TTL, l.capacity - 1));
  }

  lemma DrainedBucket(c: nat, window: real, n: nat)
    requires 1 <= c <= n && window > IDLE_TTL
    ensures var drained := After(NewBucket(c, window, 0.0), Repeat(0.0, n));
            !Consume(After(drained, Repeat(IDLE_TTL, c - 1)), IDLE_TTL).1.Allowed?
  {
    var rate := Rate(c, window);
    var b := NewBucket(c, window, 0.0);
    assert Sound(b, c, rate);
    hide Rate, Consume, NewBucket;
    SameInstantTokens(b, c, rate, 0.0, n);
    DrainToZero(b, c, rate, 0.0, c, n);
    RefillFallsShort(After(b, Repeat(0.0, n)), c, rate, window);
  }

  /** After the drain the shard still holds the key's bucket, and the next call sweeps. */
  lemma StoreDrains(l: Limiter, key: string) returns (b: BucketState)
    requires l.capacity >= 1
    ensures b.lastSeen == 0.0
    ensures Holds(l, StoreAfter(l, EMPTY_STORE, Repeat(At(key, 0.0), Drain(l))), key, b, Drain(l))
  {
    var n := Drain(l);
    RepeatTail(At(key, 0.0), n);
    var b0 := Consume(NewBucket(l.capacity, l.window, 0.0), 0.0).0;
    assert b0.lastSeen == 0.0;
    hide Consume, NewBucket, Holds;
    FirstCall(l, EMPTY_STORE, key, 0.0, 0);
    var s1 := StoreCall(l, EMPTY_STORE, At(key, 0.0)).0;
    SameInstantCalls(l, s1, key, b0, 1, 0.0, n - 1);
    b := After(b0, Repeat(0.0, n - 1));
  }

  /** A full bucket serves its whole capacity at one instant. */
  lemma FullBucketServesAll(c: nat, window: real, t: real)
    requires c >= 1 && window > 0.0
    ensures FreshRun(c, window, Repeat(t, c))[c - 1] == Allowed
  {
    var b := NewBucket(c, window, t);
    assert Sound(b, c, Rate(c, window));
    SameInstantTokens(b, c, Rate(c, window), t, c - 1);
    LastOutcome(b, Repeat(t, c));
    assert Repeat(t, c)[..c - 1] == Repeat(t, c - 1);
  }

  /** Calls made once the TTL has passed find a bucket as good as new. */
  lemma ReturnIsFresh(l: Limiter, s: StoreState, key: string, drained: BucketState, calls: nat)
    requires Holds(l, s, key, drained, calls) && drained.lastSeen == 0.0
    requires calls % SWEEP_EVERY == 0 && l.capacity >= 1
    ensures StoreRun(l, s, Repeat(At(key, IDLE_TTL), l.capacity))
         == FreshRun(l.capacity, l.window, Repeat(IDLE_TTL, l.capacity))
  {
    var c := l.capacity;
    var b := NewBucket(c, l.window, IDLE_TTL);
    var b' := Consume(b, IDLE_TTL).0;
    assert b'.lastSeen == IDLE_TTL;
    hide Consume, NewBucket, Holds, StoreCall, StoreAfter, After;
    SweptCall(l, s, key, drained, calls);
    RepeatTail(At(key, IDLE_TTL), c);
    RepeatTail(IDLE_TTL, c);
    SameInstantCalls(l, StoreCall(l, s, At(key, IDLE_TTL)).0, key, b', calls + 1, IDLE_TTL, c - 1);
  }

  /** The store allows it: the sweep has replaced the drained bucket by a full one. */
  lemma StoreAllowsLast(l: Limiter, key: string)
    requires l.capacity >= 1
    ensures StoreRun(l, EMPTY_STORE, EarlyReturn(l, key))[|EarlyReturn(l, key)| - 1] == Allowed
  {
    hide *;
    var drained := StoreDrains(l, key);
    var a, z := Repeat(At(key, 0.0), Drain(l)), Repeat(At(key, IDLE_TTL), l.capacity);
    DrainThenReturn(l, key);
    StoreRunAppend(l, EMPTY_STORE, a, z);
    ReturnIsFresh(l, StoreAfter(l, EMPTY_STORE, a), key, drained, Drain(l));
    FullBucketServesAll(l.capacity, l.window, IDLE_TTL);
  }

  lemma DrainThenReturn(l: Limiter, key: string)
    ensures EarlyReturn(l, key) == Repeat(At(key, 0.0), Drain(l)) + Repeat(At(key, IDLE_TTL), l.capacity)
    ensures Drain(l) % SWEEP_EVERY == 0
  {
  }

  lemma FirstCall(l: Limiter, s: StoreState, key: string, t: real, calls: nat)
    requires key !in s[ShardOf(l, key)].buckets && s[ShardOf(l, key)].calls == calls % U64
    ensures StoreCall(l, s, At(key, t)).1 == Consume(NewBucket(l.capacity, l.window, t), t).1
    ensures Holds(l, StoreCall(l, s, At(key, t)).0, key, Consume(NewBucket(l.capacity, l.window, t), t).0, calls + 1)
  {
    hide Consume, NewBucket;
  }

  lemma SweptCall(l: Limiter, s: StoreState, key: string, b: BucketState, calls: nat)
    requires Holds(l, s, key, b, calls) && b.lastSeen == 0.0
    requires calls % SWEEP_EVERY == 0
    ensures StoreCall(l, s, At(key, IDLE_TTL)).1 == Consume(NewBucket(l.capacity, l.window, IDLE_TTL), IDLE_TTL).1
    ensures Holds(l, StoreCall(l, s, At(key, IDLE_TTL)).0, key,
                  Consume(NewBucket(l.capacity, l.window, IDLE_TTL), IDLE_TTL).0, calls + 1)
  {
    hide Consume, NewBucket;
    assert calls % U64 % SWEEP_EVERY == 0;
  }

  /** For every sequence of calls in clock order on each shard, the store as it runs answers like a single map
      that is never swept, exactly when the window fits the idle TTL or the limiter admits nobody. */
  lemma EvictionUnobservableIff(l: Limiter)
    ensures (forall rs :: RequestsInOrder(l, rs) ==> StoreRun(l, EMPTY_STORE, rs) == IdealCalls(l, map[], rs))
       <==> l.window <= IDLE_TTL || l.capacity == 0
  {
    if l.capacity == 0 {
      forall rs: seq<Request> | RequestsInOrder(l, rs)
        ensures StoreRun(l, EMPTY_STORE, rs) == IdealCalls(l, map[], rs)
      {
        ZeroCapacityRun(l, EMPTY_STORE, map[], rs);
      }
    } else if l.window <= IDLE_TTL {
      forall rs: seq<Request> | RequestsInOrder(l, rs)
        ensures StoreRun(l, EMPTY_STORE, rs) == IdealCalls(l, map[], rs)
      {
        FreshStoreIsIdeal(l, rs);
      }
    } else {
      EarlyReturnInOrder(l, "k");
      StoreAllowsLast(l, "k");
      IdealRefusesLast(l, "k");
    }
  }
}
