/** Whole runs of the sharded store, compared with one map of buckets that is never swept. */
module RateLimitRuns {
  import opened Wrappers
  import opened TokenBucket
  import opened RateLimitStore

  // ---------------------------------------------------------------- interleaved lock regions

  /** One lock region: a sweep of a shard, over by `at`, or the use of a key's bucket. Calls of
      different threads interleave at this grain. */
  datatype Step = Sweep(shard: nat, clock: string -> real, at: real) | Call(key: string, at: real)

  type Shards = s: seq<Table> | |s| == SHARDS witness seq(SHARDS, _ => map[])

  const NO_BUCKETS: Shards := seq(SHARDS, _ => map[])

  function ShardedStep(l: Limiter, s: Shards, step: Step): (Shards, Option<Outcome>) {
    match step
    case Sweep(i, clock, _) =>
      if i < SHARDS then (s[i := SweepTable(s[i], clock)], None) else (s, None)
    case Call(key, at) =>
      var i := ShardOf(l, key);
      var (m, out) := CallTable(l.capacity, l.window, s[i], key, at);
      (s[i := m], Some(out))
  }

  /** The ideal limiter: one map, no sweeps. */
  function IdealStep(l: Limiter, m: Table, step: Step): (Table, Option<Outcome>) {
    match step
    case Sweep(_, _, _) => (m, None)
    case Call(key, at) =>
      var (m', out) := CallTable(l.capacity, l.window, m, key, at);
      (m', Some(out))
  }

  function ShardedRun(l: Limiter, s: Shards, steps: seq<Step>): (outs: seq<Option<Outcome>>)
    ensures |outs| == |steps|
    decreases |steps|
  {
    if steps == [] then []
    else [ShardedStep(l, s, steps[0]).1] + ShardedRun(l, ShardedStep(l, s, steps[0]).0, steps[1..])
  }

  function IdealRun(l: Limiter, m: Table, steps: seq<Step>): (outs: seq<Option<Outcome>>)
    ensures |outs| == |steps|
    decreases |steps|
  {
    if steps == [] then []
    else [IdealStep(l, m, steps[0]).1] + IdealRun(l, IdealStep(l, m, steps[0]).0, steps[1..])
  }

  /** The last reading made under each shard's lock. */
  type Clocks = c: seq<real> | |c| == SHARDS witness seq(SHARDS, _ => 0.0)

  /** The clock does not run backwards under one lock. Regions of different shards may overlap in
      time, so between shards nothing is asked. */
  ghost predicate Follows(l: Limiter, last: Clocks, step: Step) {
    match step
    case Sweep(i, clock, at) =>
      i < SHARDS ==> last[i] <= at && forall k :: ShardOf(l, k) == i ==> last[i] <= clock(k) <= at
    case Call(key, at) => last[ShardOf(l, key)] <= at
  }

  function Advance(l: Limiter, last: Clocks, step: Step): Clocks {
    match step
    case Sweep(i, _, at) => if i < SHARDS then last[i := at] else last
    case Call(key, at) => last[ShardOf(l, key) := at]
  }

  ghost predicate StepsFrom(l: Limiter, last: Clocks, steps: seq<Step>)
    decreases |steps|
  {
    steps == [] || (Follows(l, last, steps[0]) && StepsFrom(l, Advance(l, last, steps[0]), steps[1..]))
  }

  /** In the order in which each shard's lock was taken. */
  ghost predicate InOrder(l: Limiter, steps: seq<Step>) {
    exists start :: StepsFrom(l, start, steps)
  }

  /** After the readings `last`: where the sharded store holds a bucket it is the ideal one, and where
      it holds none the ideal one has been idle for the whole TTL by its shard's clock. */
  ghost predicate Simulates(l: Limiter, s: Shards, m: Table, last: Clocks) {
    && (forall k :: k in m ==>
          Sound(m[k], l.capacity, Rate(l.capacity, l.window)) && m[k].lastRefill <= last[ShardOf(l, k)])
    && (forall k :: k in m && k in s[ShardOf(l, k)] ==> s[ShardOf(l, k)][k] == m[k])
    && (forall k :: k in m && k !in s[ShardOf(l, k)] ==> last[ShardOf(l, k)] - m[k].lastRefill >= IDLE_TTL)
    && (forall k :: k !in m ==> k !in s[ShardOf(l, k)])
  }

  lemma SweepSimulates(
    l: Limiter, s: Shards, m: Table, last: Clocks, i: nat, clock: string -> real, at: real)
    requires Simulates(l, s, m, last) && i < SHARDS
    requires last[i] <= at && forall k :: ShardOf(l, k) == i ==> last[i] <= clock(k) <= at
    ensures Simulates(l, s[i := SweepTable(s[i], clock)], m, last[i := at])
  {
    hide Rate, ShardOf;
    var s', last' := s[i := SweepTable(s[i], clock)], last[i := at];
    forall k | k in m && k !in s'[ShardOf(l, k)]
      ensures last'[ShardOf(l, k)] - m[k].lastRefill >= IDLE_TTL
    {
      if k in s[ShardOf(l, k)] {
        assert s[ShardOf(l, k)][k] == m[k];
      }
    }
  }

  lemma CallSimulates(l: Limiter, s: Shards, m: Table, last: Clocks, key: string, at: real)
    requires l.window <= IDLE_TTL
    requires Simulates(l, s, m, last) && last[ShardOf(l, key)] <= at
    ensures var i := ShardOf(l, key);
            var (ms, outs) := CallTable(l.capacity, l.window, s[i], key, at);
            var (mi, outi) := CallTable(l.capacity, l.window, m, key, at);
            outs == outi && Simulates(l, s[i := ms], mi, last[i := at])
  {
    hide Consume, NewBucket, Rate, Sound, ShardOf;
    BothTablesAgree(l, s, m, last, key, at);
    var i := ShardOf(l, key);
    var ms, mi := CallTable(l.capacity, l.window, s[i], key, at), CallTable(l.capacity, l.window, m, key, at);
    forall k | k in mi.0 && k !in s[i := ms.0][ShardOf(l, k)]
      ensures last[i := at][ShardOf(l, k)] - mi.0[k].lastRefill >= IDLE_TTL
    {
      assert k != key;
      assert k !in s[ShardOf(l, k)];
    }
  }

  lemma BothTablesAgree(l: Limiter, s: Shards, m: Table, last: Clocks, key: string, at: real)
    requires l.window <= IDLE_TTL
    requires Simulates(l, s, m, last) && last[ShardOf(l, key)] <= at
    ensures var (ms, outs) := CallTable(l.capacity, l.window, s[ShardOf(l, key)], key, at);
            var (mi, outi) := CallTable(l.capacity, l.window, m, key, at);
            && outs == outi && ms[key] == mi[key]
            && Sound(mi[key], l.capacity, Rate(l.capacity, l.window)) && mi[key].lastRefill == at
  {
    hide ShardOf;
    if key in m && key !in s[ShardOf(l, key)] {
      IdleIsFresh(m[key], l.capacity, l.window, at);
    }
    var b := BucketFor(l.capacity, l.window, m, key, at);
    assert Sound(b, l.capacity, Rate(l.capacity, l.window));
    hide Consume, Rate, Sound, NewBucket;
    ConsumeKeepsSound(b, l.capacity, Rate(l.capacity, l.window), at);
  }

  lemma {:induction false} SimulationRun(l: Limiter, s: Shards, m: Table, last: Clocks, steps: seq<Step>)
    requires l.window <= IDLE_TTL
    requires Simulates(l, s, m, last) && StepsFrom(l, last, steps)
    ensures ShardedRun(l, s, steps) == IdealRun(l, m, steps)
    decreases |steps|
  {
    hide Simulates, CallTable, SweepTable, ShardOf;
    if steps != [] {
      match steps[0] {
        case Sweep(i, clock, at) =>
          if i < SHARDS {
            SweepSimulates(l, s, m, last, i, clock, at);
          }
        case Call(key, at) => CallSimulates(l, s, m, last, key, at);
      }
      SimulationRun(
        l, ShardedStep(l, s, steps[0]).0, IdealStep(l, m, steps[0]).0, Advance(l, last, steps[0]), steps[1..]);
    }
  }

  lemma LaterSimulates(l: Limiter, s: Shards, m: Table, last: Clocks, i: nat, at: real)
    requires Simulates(l, s, m, last) && i < SHARDS && last[i] <= at
    ensures Simulates(l, s, m, last[i := at])
  {
    hide Rate, Sound, ShardOf;
  }

  /** Sharding and eviction cannot be observed: whatever the hash, the interleaving of threads, the
      overlap of work on different shards and the moments at which they are swept, each call gets
      the answer, wait included, that one never-swept map would give, provided the window is at
      most the idle TTL. */
  lemma EvictionUnobservable(l: Limiter, steps: seq<Step>)
    requires l.window <= IDLE_TTL
    requires InOrder(l, steps)
    ensures ShardedRun(l, NO_BUCKETS, steps) == IdealRun(l, map[], steps)
  {
    var start :| StepsFrom(l, start, steps);
    SimulationRun(l, NO_BUCKETS, map[], start, steps);
  }

  // ---------------------------------------------------------------- each key has a private bucket

  function KeyTimes(steps: seq<Step>, key: string): seq<real>
    decreases |steps|
  {
    if steps == [] then []
    else if steps[0].Call? && steps[0].key == key then [steps[0].at] + KeyTimes(steps[1..], key)
    else KeyTimes(steps[1..], key)
  }

  function KeyOutcomes(steps: seq<Step>, outs: seq<Option<Outcome>>, key: string): seq<Outcome>
    requires |outs| == |steps|
    decreases |steps|
  {
    if steps == [] then []
    else if steps[0].Call? && steps[0].key == key && outs[0].Some?
    then [outs[0].value] + KeyOutcomes(steps[1..], outs[1..], key)
    else KeyOutcomes(steps[1..], outs[1..], key)
  }

  lemma {:induction false} IdealIsPrivate(l: Limiter, m: Table, steps: seq<Step>, key: string)
    ensures KeyOutcomes(steps, IdealRun(l, m, steps), key)
         == if key in m then Run(m[key], KeyTimes(steps, key))
            else FreshRun(l.capacity, l.window, KeyTimes(steps, key))
    decreases |steps|
  {
    hide Consume, NewBucket;
    if steps != [] {
      var m' := IdealStep(l, m, steps[0]).0;
      IdealIsPrivate(l, m', steps[1..], key);
      assert IdealRun(l, m, steps)[1..] == IdealRun(l, m', steps[1..]);
      if steps[0].Call? && steps[0].key == key {
        var times := KeyTimes(steps, key);
        assert times[0] == steps[0].at && times[1..] == KeyTimes(steps[1..], key);
      }
    }
  }

  /** Seen from one key, the sharded, sweeping store is a single token bucket of its own. */
  lemma StoreIsPrivateBucket(l: Limiter, steps: seq<Step>, key: string)
    requires l.window <= IDLE_TTL
    requires InOrder(l, steps)
    ensures KeyOutcomes(steps, ShardedRun(l, NO_BUCKETS, steps), key)
         == FreshRun(l.capacity, l.window, KeyTimes(steps, key))
  {
    EvictionUnobservable(l, steps);
    IdealIsPrivate(l, map[], steps, key);
  }

  lemma {:induction false} KeyTimesFrom(l: Limiter, last: Clocks, steps: seq<Step>, key: string)
    requires StepsFrom(l, last, steps)
    ensures forall i :: 0 <= i < |KeyTimes(steps, key)| ==> last[ShardOf(l, key)] <= KeyTimes(steps, key)[i]
    ensures Monotone(KeyTimes(steps, key))
    decreases |steps|
  {
    hide ShardOf;
    if steps != [] {
      KeyTimesFrom(l, Advance(l, last, steps[0]), steps[1..], key);
    }
  }

  lemma KeyTimesMonotone(l: Limiter, steps: seq<Step>, key: string)
    requires InOrder(l, steps)
    ensures Monotone(KeyTimes(steps, key))
  {
    var start :| StepsFrom(l, start, steps);
    KeyTimesFrom(l, start, steps, key);
  }

  /** Burst bound through the store: from its i-th to its j-th call, a key gets at most
      capacity + elapsed * rate requests through. */
  lemma StoreBurstBound(l: Limiter, steps: seq<Step>, key: string, i: nat, j: nat)
    requires l.window <= IDLE_TTL
    requires InOrder(l, steps)
    requires i <= j < |KeyTimes(steps, key)|
    ensures |KeyOutcomes(steps, ShardedRun(l, NO_BUCKETS, steps), key)| == |KeyTimes(steps, key)|
    ensures Admitted(KeyOutcomes(steps, ShardedRun(l, NO_BUCKETS, steps), key)[i..j + 1]) as real
         <= l.capacity as real
            + (KeyTimes(steps, key)[j] - KeyTimes(steps, key)[i]) * Rate(l.capacity, l.window)
  {
    hide *;
    KeyTimesMonotone(l, steps, key);
    StoreIsPrivateBucket(l, steps, key);
    BurstBound(l.capacity, l.window, KeyTimes(steps, key), i, j);
  }

  /** No needless refusal through the store: no feasible rival policy for one key has let more
      of its requests through at any point. */
  lemma StoreNeverNeedlesslyStrict(l: Limiter, steps: seq<Step>, key: string, admit: seq<bool>, i: nat)
    requires l.window <= IDLE_TTL
    requires InOrder(l, steps)
    requires |KeyTimes(steps, key)| == |admit| && i <= |admit| && admit != []
    requires Feasible(NewBucket(l.capacity, l.window, KeyTimes(steps, key)[0]), KeyTimes(steps, key), admit)
    ensures |KeyOutcomes(steps, ShardedRun(l, NO_BUCKETS, steps), key)| == |admit|
    ensures CountTrue(admit[..i])
         <= Admitted(KeyOutcomes(steps, ShardedRun(l, NO_BUCKETS, steps), key)[..i])
  {
    hide *;
    StoreIsPrivateBucket(l, steps, key);
    NeverNeedlesslyStrict(l.capacity, l.window, KeyTimes(steps, key), admit, i);
  }

  // ---------------------------------------------------------------- runs of whole calls

  function StoreRun(l: Limiter, s: StoreState, rs: seq<Request>): (outs: seq<Outcome>)
    ensures |outs| == |rs|
    decreases |rs|
  {
    if rs == [] then [] else [StoreCall(l, s, rs[0]).1] + StoreRun(l, StoreCall(l, s, rs[0]).0, rs[1..])
  }

  function StoreAfter(l: Limiter, s: StoreState, rs: seq<Request>): StoreState
    decreases |rs|
  {
    if rs == [] then s else StoreAfter(l, StoreCall(l, s, rs[0]).0, rs[1..])
  }

  function IdealCalls(l: Limiter, m: Table, rs: seq<Request>): (outs: seq<Outcome>)
    ensures |outs| == |rs|
    decreases |rs|
  {
    if rs == [] then []
    else
      var (m', out) := CallTable(l.capacity, l.window, m, rs[0].key, rs[0].at);
      [out] + IdealCalls(l, m', rs[1..])
  }

  /** Calls in clock order on each shard: the readings of a call's sweep, then that at which it makes
      a bucket, then that with which it uses one. */
  ghost predicate RequestsFrom(l: Limiter, last: Clocks, rs: seq<Request>)
    decreases |rs|
  {
    rs == [] || (
      var i := ShardOf(l, rs[0].key);
      && (forall k :: ShardOf(l, k) == i ==> last[i] <= rs[0].clock(k) <= rs[0].created)
      && RequestsFrom(l, last[i := rs[0].at], rs[1..]))
  }

  ghost predicate RequestsInOrder(l: Limiter, rs: seq<Request>) {
    exists start :: RequestsFrom(l, start, rs)
  }

  function Tables(s: StoreState): Shards {
    seq(SHARDS, i requires 0 <= i < SHARDS => s[i].buckets)
  }

  lemma {:induction false} CallsSimulate(l: Limiter, s: StoreState, m: Table, last: Clocks, rs: seq<Request>)
    requires l.window <= IDLE_TTL
    requires Simulates(l, Tables(s), m, last) && RequestsFrom(l, last, rs)
    ensures StoreRun(l, s, rs) == IdealCalls(l, m, rs)
    decreases |rs|
  {
    hide Simulates, CallTable, SweepTable, ShardOf;
    if rs != [] {
      var r := rs[0];
      var i := ShardOf(l, r.key);
      var ts, ts', mid := Tables(s), Tables(s), last[i := r.created];
      assert last[i] <= r.clock(r.key) <= r.created;
      if s[i].calls % SWEEP_EVERY == 0 {
        SweepSimulates(l, ts, m, last, i, r.clock, r.created);
        ts' := ts[i := SweepTable(ts[i], r.clock)];
      } else {
        LaterSimulates(l, ts, m, last, i, r.created);
      }
      CallSimulates(l, ts', m, mid, r.key, r.at);
      assert mid[i := r.at] == last[i := r.at];
      var s1 := StoreCall(l, s, r).0;
      assert Tables(s1) == ts'[i := CallTable(l.capacity, l.window, ts'[i], r.key, r.at).0];
      CallsSimulate(l, s1, CallTable(l.capacity, l.window, m, r.key, r.at).0, last[i := r.at], rs[1..]);
    }
  }

  // A limiter of capacity zero refuses everyone for good, swept or not.

  ghost predicate AllEmpty(m: Table) {
    forall k :: k in m ==> m[k].tokens == 0.0 == m[k].capacity && m[k].refillRate == 0.0
  }

  lemma EmptyCall(l: Limiter, m: Table, key: string, at: real)
    requires l.capacity == 0 && AllEmpty(m)
    ensures AllEmpty(CallTable(l.capacity, l.window, m, key, at).0)
    ensures CallTable(l.capacity, l.window, m, key, at).1 == Never
  {
    var b := BucketFor(l.capacity, l.window, m, key, at);
    assert Available(b, at) == 0.0;
  }

  lemma {:induction false} ZeroCapacityRun(l: Limiter, s: StoreState, m: Table, rs: seq<Request>)
    requires l.capacity == 0
    requires AllEmpty(m) && forall i :: 0 <= i < SHARDS ==> AllEmpty(s[i].buckets)
    ensures StoreRun(l, s, rs) == IdealCalls(l, m, rs)
    decreases |rs|
  {
    if rs != [] {
      var r := rs[0];
      var i := ShardOf(l, r.key);
      var swept := if s[i].calls % SWEEP_EVERY == 0 then SweepTable(s[i].buckets, r.clock) else s[i].buckets;
      EmptyCall(l, swept, r.key, r.at);
      EmptyCall(l, m, r.key, r.at);
      ZeroCapacityRun(l, StoreCall(l, s, r).0, CallTable(l.capacity, l.window, m, r.key, r.at).0, rs[1..]);
    }
  }

  // ---------------------------------------------------------------- the store itself

  /** Of the outcomes `whole`, `outs` have been given, and `rs[i..]` meets the store in state `s`. */
  ghost predicate Served(l: Limiter, rs: seq<Request>, whole: seq<Outcome>, i: nat, outs: seq<Outcome>, s: StoreState)
    requires i <= |rs|
  {
    whole == outs + StoreRun(l, s, rs[i..])
  }

  lemma ServedEnds(l: Limiter, rs: seq<Request>, whole: seq<Outcome>, outs: seq<Outcome>, s: StoreState)
    ensures whole == StoreRun(l, s, rs) ==> Served(l, rs, whole, 0, [], s)
    ensures Served(l, rs, whole, |rs|, outs, s) ==> outs == whole
  {
    assert rs[0..] == rs && [] + StoreRun(l, s, rs) == StoreRun(l, s, rs);
    assert outs + [] == outs;
  }

  lemma ServedOneMore(l: Limiter, rs: seq<Request>, whole: seq<Outcome>, i: nat, outs: seq<Outcome>, s: StoreState)
    requires i < |rs| && Served(l, rs, whole, i, outs, s)
    ensures Served(l, rs, whole, i + 1, outs + [StoreCall(l, s, rs[i]).1], StoreCall(l, s, rs[i]).0)
  {
    hide StoreCall;
    assert rs[i..][0] == rs[i] && rs[i..][1..] == rs[i + 1..];
    var (next, out) := StoreCall(l, s, rs[i]);
    assert outs + ([out] + StoreRun(l, next, rs[i + 1..])) == outs + [out] + StoreRun(l, next, rs[i + 1..]);
  }

  lemma FreshStoreIsIdeal(l: Limiter, rs: seq<Request>)
    requires l.window <= IDLE_TTL && RequestsInOrder(l, rs)
    ensures StoreRun(l, EMPTY_STORE, rs) == IdealCalls(l, map[], rs)
  {
    var start :| RequestsFrom(l, start, rs);
    CallsSimulate(l, EMPTY_STORE, map[], start, rs);
  }

  /** A new store serving calls one after the other gives the outcomes of `StoreRun`, and so, when
      the window fits the TTL, those of one never-swept map. */
  method ServeAll(l: Limiter, rs: seq<Request>) returns (outs: seq<Outcome>)
    ensures outs == StoreRun(l, EMPTY_STORE, rs)
    ensures l.window <= IDLE_TTL && RequestsInOrder(l, rs) ==> outs == IdealCalls(l, map[], rs)
  {
    hide Served, StoreCall, StoreRun, IdealCalls, RequestsInOrder;
    outs := [];
    var store := new BucketStore(l.hash);
    if l.window <= IDLE_TTL && RequestsInOrder(l, rs) {
      FreshStoreIsIdeal(l, rs);
    }
    ghost var state, whole := store.State(), StoreRun(l, EMPTY_STORE, rs);
    ServedEnds(l, rs, whole, [], state);
    for i := 0 to |rs|
      invariant store.hash == l.hash && store.Valid() && fresh(store.shards) && fresh(store.Buckets())
      invariant store.State() == state && Served(l, rs, whole, i, outs, state)
    {
      ServedOneMore(l, rs, whole, i, outs, state);
      var out := store.TryConsume(rs[i], l.capacity, l.window);
      outs := outs + [out];
      state := store.State();
    }
    ServedEnds(l, rs, whole, outs, state);
  }
}
