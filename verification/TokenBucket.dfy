/** One token bucket (arvik-middleware/src/rate_limit.rs, `Bucket`).

    Instants and durations are exact reals counted in seconds; tokens are exact reals.
    The value `BucketState` carries the arithmetic, the class `Bucket` is the mutable struct. */
module TokenBucket {

  /** `None` of the source is `Allowed`. `Some(secs)` is `Wait(secs)`; a refill rate of zero
      (capacity 0) makes the quotient infinite, which is `Never`. */
  datatype Outcome = Allowed | Wait(secs: real) | Never

  datatype BucketState = BucketState(
    tokens: real, capacity: real, refillRate: real, lastRefill: real, lastSeen: real)

  /** `Instant::duration_since` saturates at zero. */
  function Elapsed(now: real, since: real): (d: real)
    ensures d >= 0.0
  {
    if now >= since then now - since else 0.0
  }

  function Min(a: real, b: real): real { if a <= b then a else b }

  /** Tokens per second. */
  function Rate(capacity: nat, window: real): (r: real)
    requires window > 0.0
    ensures r >= 0.0 && r * window == capacity as real
    ensures r == 0.0 <==> capacity == 0
  {
    capacity as real / window
  }

  function NewBucket(capacity: nat, window: real, now: real): BucketState
    requires window > 0.0
  {
    BucketState(capacity as real, capacity as real, Rate(capacity, window), now, now)
  }

  /** What a level of `tokens` grows to in `elapsed` seconds. */
  function Refilled(tokens: real, elapsed: real, rate: real, capacity: real): real {
    Min(tokens + elapsed * rate, capacity)
  }

  /** Tokens on hand at `now`, after the lazy refill and before the request is served. */
  function Available(b: BucketState, now: real): real {
    Refilled(b.tokens, Elapsed(now, b.lastRefill), b.refillRate, b.capacity)
  }

  function Decide(tokens: real, refillRate: real): Outcome {
    if tokens >= 1.0 then Allowed
    else if refillRate == 0.0 then Never
    else Wait((1.0 - tokens) / refillRate)
  }

  function Consume(b: BucketState, now: real): (r: (BucketState, Outcome)) {
    var t := Available(b, now);
    var out := Decide(t, b.refillRate);
    (b.(tokens := if out.Allowed? then t - 1.0 else t, lastRefill := now, lastSeen := now), out)
  }

  class Bucket {
    var tokens: real
    const capacity: real
    const refillRate: real
    var lastRefill: real
    var lastSeen: real

    function State(): BucketState
      reads this
    {
      BucketState(tokens, capacity, refillRate, lastRefill, lastSeen)
    }

    constructor (cap: nat, window: real, now: real)
      requires window > 0.0
      ensures State() == NewBucket(cap, window, now)
    {
      tokens := cap as real;
      capacity := cap as real;
      refillRate := Rate(cap, window);
      lastRefill := now;
      lastSeen := now;
    }

    method TryConsume(now: real) returns (r: Outcome)
      modifies this
      ensures (State(), r) == Consume(old(State()), now)
    {
      var elapsed := Elapsed(now, lastRefill);
      tokens := Refilled(tokens, elapsed, refillRate, capacity);
      lastRefill := now;
      lastSeen := now;
      if tokens >= 1.0 {
        tokens := tokens - 1.0;
        r := Allowed;
      } else if refillRate == 0.0 {
        r := Never;
      } else {
        r := Wait((1.0 - tokens) / refillRate);
      }
    }
  }

  // ---------------------------------------------------------------- runs of one bucket

  /** What every bucket made by `NewBucket` and stepped by `Consume` satisfies. */
  ghost predicate Sound(b: BucketState, capacity: nat, rate: real) {
    && b.capacity == capacity as real
    && b.refillRate == rate >= 0.0
    && 0.0 <= b.tokens <= b.capacity
    && b.lastSeen == b.lastRefill
  }

  ghost predicate Monotone(times: seq<real>) {
    forall i, j :: 0 <= i <= j < |times| ==> times[i] <= times[j]
  }

  ghost predicate MonotoneFrom(t: real, times: seq<real>)
    decreases |times|
  {
    times == [] || (t <= times[0] && MonotoneFrom(times[0], times[1..]))
  }

  /** Outcomes of calls made at `times` on a bucket in state `b`. */
  function Run(b: BucketState, times: seq<real>): (outs: seq<Outcome>)
    ensures |outs| == |times|
    decreases |times|
  {
    if times == [] then []
    else var (b', out) := Consume(b, times[0]); [out] + Run(b', times[1..])
  }

  function After(b: BucketState, times: seq<real>): BucketState
    decreases |times|
  {
    if times == [] then b else After(Consume(b, times[0]).0, times[1..])
  }

  /** A bucket is created, full, by the first call that needs it. */
  function FreshRun(capacity: nat, window: real, times: seq<real>): (outs: seq<Outcome>)
    requires window > 0.0
    ensures |outs| == |times|
  {
    if times == [] then [] else Run(NewBucket(capacity, window, times[0]), times)
  }

  function Gain(out: Outcome): nat { if out.Allowed? then 1 else 0 }

  function Admitted(outs: seq<Outcome>): nat {
    if outs == [] then 0 else Gain(outs[0]) + Admitted(outs[1..])
  }

  lemma MulMono(a: real, b: real, r: real)
    requires a <= b && r >= 0.0
    ensures a * r <= b * r
  {
  }

  lemma ProductSign(d: real, r: real, p: real)
    requires p == d * r && r >= 0.0
    ensures d >= 0.0 ==> p >= 0.0
    ensures d <= 0.0 ==> p <= 0.0
    ensures r > 0.0 && d > 0.0 ==> p > 0.0
    ensures r == 0.0 ==> p == 0.0
  {
  }

  /** Division undoes multiplication. */
  lemma QuotientIs(p: real, d: real, r: real)
    requires r > 0.0 && p == d * r
    ensures p / r == d
  {
    var q := p / r;
    assert q * r == p;
    if q < d { ProductLess(q, d, r); }
    if d < q { ProductLess(d, q, r); }
  }

  lemma ProductLess(a: real, b: real, r: real)
    requires a < b && r > 0.0
    ensures a * r < b * r
  {
  }

  /** A call, told how many tokens have trickled in: no product is left in it. */
  function ConsumeGain(b: BucketState, gained: real, now: real): (BucketState, Outcome) {
    var t := Min(b.tokens + gained, b.capacity);
    var out := Decide(t, b.refillRate);
    (b.(tokens := if t >= 1.0 then t - 1.0 else t, lastRefill := now, lastSeen := now), out)
  }

  lemma RefilledByGain(tokens: real, elapsed: real, rate: real, capacity: real, gained: real)
    requires gained == elapsed * rate
    ensures Refilled(tokens, elapsed, rate, capacity) == Min(tokens + gained, capacity)
  {
  }

  lemma DecideCases(t: real, r: real)
    ensures Decide(t, r).Allowed? <==> t >= 1.0
    ensures t < 1.0 && r != 0.0 ==> Decide(t, r) == Wait((1.0 - t) / r)
  {
  }

  lemma ConsumeByGain(b: BucketState, gained: real, now: real)
    requires gained == Elapsed(now, b.lastRefill) * b.refillRate
    ensures Consume(b, now) == ConsumeGain(b, gained, now)
  {
    hide Refilled, Decide, Min;
    var t := Available(b, now);
    RefilledByGain(b.tokens, Elapsed(now, b.lastRefill), b.refillRate, b.capacity, gained);
    DecideCases(t, b.refillRate);
    assert t == Min(b.tokens + gained, b.capacity);
  }

  lemma ConsumeKeepsSound(b: BucketState, capacity: nat, rate: real, now: real)
    requires Sound(b, capacity, rate)
    ensures Sound(Consume(b, now).0, capacity, rate)
    ensures Consume(b, now).0.lastRefill == now
    ensures Gain(Consume(b, now).1) as real + Consume(b, now).0.tokens <= capacity as real
  {
    MulMono(0.0, Elapsed(now, b.lastRefill), b.refillRate);
  }

  lemma {:induction false} AfterKeepsSound(b: BucketState, capacity: nat, rate: real, times: seq<real>)
    requires Sound(b, capacity, rate)
    ensures Sound(After(b, times), capacity, rate)
    ensures times != [] ==> After(b, times).lastRefill == times[|times| - 1]
    decreases |times|
  {
    if times != [] {
      ConsumeKeepsSound(b, capacity, rate, times[0]);
      AfterKeepsSound(Consume(b, times[0]).0, capacity, rate, times[1..]);
    }
  }

  /** A run splits at any point. */
  lemma {:induction false} RunSplit(b: BucketState, times: seq<real>, i: nat)
    requires i <= |times|
    ensures Run(b, times)[..i] == Run(b, times[..i])
    ensures Run(b, times)[i..] == Run(After(b, times[..i]), times[i..])
    decreases |times|
  {
    if i > 0 {
      var b' := Consume(b, times[0]).0;
      RunSplit(b', times[1..], i - 1);
      assert times[..i][0] == times[0];
      assert times[..i][1..] == times[1..][..i - 1];
      assert times[i..] == times[1..][i - 1..];
    } else {
      assert times[..0] == [];
      assert times[0..] == times;
    }
  }

  // ---------------------------------------------------------------- idle buckets are full

  /** After `window` without a call a bucket is indistinguishable from a new one. */
  lemma IdleIsFresh(b: BucketState, capacity: nat, window: real, now: real)
    requires window > 0.0 && Sound(b, capacity, Rate(capacity, window))
    requires now - b.lastRefill >= window
    ensures Consume(b, now) == Consume(NewBucket(capacity, window, now), now)
  {
    MulMono(window, now - b.lastRefill, b.refillRate);
    assert Available(b, now) == b.capacity;
    assert Available(NewBucket(capacity, window, now), now) == b.capacity;
  }

  // ---------------------------------------------------------------- burst bound

  lemma ConservationStep(b: BucketState, capacity: nat, rate: real, now: real)
    requires Sound(b, capacity, rate)
    requires b.lastRefill <= now
    ensures var (b', out) := Consume(b, now);
            Gain(out) as real + b'.tokens <= b.tokens + (now - b.lastRefill) * rate
  {
  }

  lemma ChainInflow(gain: nat, admitted: nat, left: real, mid: real, start: real, in1: real, in2: real)
    requires gain as real + mid <= start + in1
    requires admitted as real + left <= mid + in2
    ensures (gain + admitted) as real + left <= start + (in1 + in2)
  {
  }

  lemma AddSpans(t0: real, t1: real, t2: real, r: real)
    ensures (t1 - t0) * r + (t2 - t1) * r == (t2 - t0) * r
  {
  }

  /** Tokens are conserved: what calls made from t0 to tn were granted plus what is left never
      exceeds what was on hand plus what trickled in. */
  lemma {:induction false} Conservation(
    b: BucketState, capacity: nat, rate: real, times: seq<real>, t0: real, tn: real)
    requires Sound(b, capacity, rate) && b.lastRefill == t0
    requires MonotoneFrom(t0, times)
    requires tn == ([t0] + times)[|times|]
    ensures Admitted(Run(b, times)) as real + After(b, times).tokens <= b.tokens + (tn - t0) * rate
    decreases |times|
  {
    hide Consume;
    if times != [] {
      var t, rest := times[0], times[1..];
      var (b', out) := Consume(b, t);
      ConsumeKeepsSound(b, capacity, rate, t);
      ConservationStep(b, capacity, rate, t);
      assert [t] + rest == times;
      Conservation(b', capacity, rate, rest, t, tn);
      assert Run(b, times) == [out] + Run(b', rest);
      ChainInflow(Gain(out), Admitted(Run(b', rest)), After(b, times).tokens, b'.tokens, b.tokens,
                  (t - t0) * rate, (tn - t) * rate);
      AddSpans(t0, t, tn, rate);
    }
  }

  lemma {:induction false} MonotoneSlice(times: seq<real>, i: nat, j: nat)
    requires Monotone(times)
    requires i < j <= |times|
    ensures MonotoneFrom(times[i], times[i + 1..j])
    decreases j - i
  {
    if i + 1 < j {
      MonotoneSlice(times, i + 1, j);
      assert times[i + 1..j][1..] == times[i + 2..j];
    }
  }

  /** The state in which call i finds the bucket, and what the calls from i on return. */
  lemma FreshRunFrom(capacity: nat, window: real, times: seq<real>, i: nat) returns (b: BucketState)
    requires window > 0.0
    requires i < |times|
    ensures Sound(b, capacity, Rate(capacity, window))
    ensures FreshRun(capacity, window, times)[i..] == Run(b, times[i..])
  {
    var b0 := NewBucket(capacity, window, times[0]);
    b := After(b0, times[..i]);
    AfterKeepsSound(b0, capacity, Rate(capacity, window), times[..i]);
    RunSplit(b0, times, i);
  }

  /** A first call caps what is on hand at capacity, so a stretch of calls cannot draw on more. */
  lemma StretchBound(b: BucketState, capacity: nat, rate: real, times: seq<real>, t0: real, tn: real)
    requires Sound(b, capacity, rate)
    requires times != [] && times[0] == t0 && times[|times| - 1] == tn
    requires MonotoneFrom(t0, times[1..])
    ensures Admitted(Run(b, times)) as real <= capacity as real + (tn - t0) * rate
  {
    hide Consume, MonotoneFrom;
    var (b', out) := Consume(b, t0);
    ConsumeKeepsSound(b, capacity, rate, t0);
    assert [t0] + times[1..] == times;
    Conservation(b', capacity, rate, times[1..], t0, tn);
    AfterKeepsSound(b', capacity, rate, times[1..]);
    assert Run(b, times) == [out] + Run(b', times[1..]);
  }

  /** A stretch of a run is a run of its own from the bucket its first call finds. */
  lemma FreshStretch(capacity: nat, window: real, times: seq<real>, i: nat, j: nat)
    returns (b: BucketState, stretch: seq<real>)
    requires window > 0.0 && Monotone(times)
    requires i <= j < |times|
    ensures Sound(b, capacity, Rate(capacity, window))
    ensures stretch != [] && stretch[0] == times[i] && stretch[|stretch| - 1] == times[j]
    ensures MonotoneFrom(times[i], stretch[1..])
    ensures FreshRun(capacity, window, times)[i..j + 1] == Run(b, stretch)
  {
    hide *;
    var outs := FreshRun(capacity, window, times);
    b := FreshRunFrom(capacity, window, times, i);
    stretch := times[i..j + 1];
    RunSplit(b, times[i..], j + 1 - i);
    assert outs[i..j + 1] == outs[i..][..j + 1 - i];
    assert times[i..][..j + 1 - i] == stretch;
    MonotoneSlice(times, i, j + 1);
    assert stretch[1..] == times[i + 1..j + 1];
  }

  /** In any stretch of a run, calls i..j inclusive, at most
      capacity + elapsed * rate requests get through, with rate = capacity / window. */
  lemma BurstBound(capacity: nat, window: real, times: seq<real>, i: nat, j: nat)
    requires window > 0.0
    requires Monotone(times)
    requires i <= j < |times|
    ensures Admitted(FreshRun(capacity, window, times)[i..j + 1]) as real
         <= capacity as real + (times[j] - times[i]) * Rate(capacity, window)
  {
    hide *;
    var b, stretch := FreshStretch(capacity, window, times, i, j);
    StretchBound(b, capacity, Rate(capacity, window), stretch, times[i], times[j]);
  }

  // ---------------------------------------------------------------- optimality

  /** Token level after a policy's decisions `admit` at `times`: same start, refill and cap. */
  function PolicyLevel(b: BucketState, times: seq<real>, admit: seq<bool>): real
    requires |times| == |admit|
    decreases |times|
  {
    if times == [] then b.tokens
    else
      var n := |times| - 1;
      var since := if n == 0 then b.lastRefill else times[n - 1];
      var level := Refilled(PolicyLevel(b, times[..n], admit[..n]), Elapsed(times[n], since), b.refillRate, b.capacity);
      if admit[n] then level - 1.0 else level
  }

  /** A policy is feasible when it never drives its level below zero. */
  ghost predicate Feasible(b: BucketState, times: seq<real>, admit: seq<bool>)
    requires |times| == |admit|
  {
    forall i :: 0 <= i <= |times| ==> PolicyLevel(b, times[..i], admit[..i]) >= 0.0
  }

  function CountTrue(admit: seq<bool>): nat
  {
    if admit == [] then 0
    else CountTrue(admit[..|admit| - 1]) + (if admit[|admit| - 1] then 1 else 0)
  }

  lemma {:induction false} AdmittedSnoc(outs: seq<Outcome>, out: Outcome)
    ensures Admitted(outs + [out]) == Admitted(outs) + Gain(out)
  {
    if outs == [] {
      assert outs + [out] == [out];
    } else {
      AdmittedSnoc(outs[1..], out);
      assert (outs + [out])[1..] == outs[1..] + [out];
    }
  }

  lemma {:induction false} AfterSnoc(b: BucketState, times: seq<real>, t: real)
    ensures After(b, times + [t]) == Consume(After(b, times), t).0
    ensures Run(b, times + [t]) == Run(b, times) + [Consume(After(b, times), t).1]
    decreases |times|
  {
    if times == [] {
      assert times + [t] == [t];
    } else {
      AfterSnoc(Consume(b, times[0]).0, times[1..], t);
      assert (times + [t])[1..] == times[1..] + [t];
      assert (times + [t])[0] == times[0];
    }
  }

  /** One request later the greedy bucket is still ahead. */
  lemma GreedyStep(b: BucketState, capacity: nat, rate: real, now: real, level: real, lead: nat, admit: bool)
    requires Sound(b, capacity, rate)
    requires level <= b.tokens + lead as real
    requires Refilled(level, Elapsed(now, b.lastRefill), rate, b.capacity) >= (if admit then 1.0 else 0.0)
    ensures var (b', out) := Consume(b, now);
            var lead' := lead + Gain(out) - (if admit then 1 else 0);
            && lead' >= 0
            && Refilled(level, Elapsed(now, b.lastRefill), rate, b.capacity) - (if admit then 1.0 else 0.0)
            <= b'.tokens + lead' as real
  {
    hide Consume, Refilled, Decide, Elapsed;
    var elapsed := Elapsed(now, b.lastRefill);
    var gained := elapsed * rate;
    ProductSign(elapsed, rate, gained);
    ConsumeByGain(b, gained, now);
    RefilledByGain(level, elapsed, rate, b.capacity, gained);
    DecideCases(Min(b.tokens + gained, b.capacity), b.refillRate);
  }

  /** The greedy bucket stays ahead: counting each request it is ahead by as one token, it
      never holds less than the rival. */
  lemma {:induction false} GreedyStaysAhead(
    b: BucketState, capacity: nat, rate: real, times: seq<real>, admit: seq<bool>)
    requires Sound(b, capacity, rate)
    requires |times| == |admit|
    requires Feasible(b, times, admit)
    ensures CountTrue(admit) <= Admitted(Run(b, times))
    ensures PolicyLevel(b, times, admit)
         <= After(b, times).tokens + (Admitted(Run(b, times)) - CountTrue(admit)) as real
    decreases |times|
  {
    hide Consume, Refilled;
    if times != [] {
      var n := |times| - 1;
      var ts, ds, t := times[..n], admit[..n], times[n];
      FeasiblePrefix(b, times, admit, n);
      GreedyStaysAhead(b, capacity, rate, ts, ds);
      var bn := After(b, ts);
      AfterKeepsSound(b, capacity, rate, ts);
      assert bn.lastRefill == if n == 0 then b.lastRefill else times[n - 1];
      assert times[..|times|] == times && admit[..|admit|] == admit;
      assert PolicyLevel(b, times, admit) >= 0.0;
      GreedyStep(bn, capacity, rate, t, PolicyLevel(b, ts, ds),
                 Admitted(Run(b, ts)) - CountTrue(ds), admit[n]);
      assert times == ts + [t];
      AfterSnoc(b, ts, t);
      AdmittedSnoc(Run(b, ts), Consume(bn, t).1);
    }
  }

  lemma FeasiblePrefix(b: BucketState, times: seq<real>, admit: seq<bool>, n: nat)
    requires |times| == |admit| && n <= |times|
    requires Feasible(b, times, admit)
    ensures Feasible(b, times[..n], admit[..n])
  {
    forall k | 0 <= k <= n
      ensures PolicyLevel(b, times[..n][..k], admit[..n][..k]) >= 0.0
    {
      assert times[..n][..k] == times[..k] && admit[..n][..k] == admit[..k];
    }
  }

  /** Never needlessly strict: at no point of any run has a feasible rival let more requests
      through than the bucket. */
  lemma NeverNeedlesslyStrict(capacity: nat, window: real, times: seq<real>, admit: seq<bool>, i: nat)
    requires window > 0.0
    requires |times| == |admit| && times != []
    requires Feasible(NewBucket(capacity, window, times[0]), times, admit)
    requires i <= |times|
    ensures CountTrue(admit[..i]) <= Admitted(FreshRun(capacity, window, times)[..i])
  {
    var rate := Rate(capacity, window);
    var b := NewBucket(capacity, window, times[0]);
    RunSplit(b, times, i);
    FeasiblePrefix(b, times, admit, i);
    GreedyStaysAhead(b, capacity, rate, times[..i], admit[..i]);
  }

  // ---------------------------------------------------------------- the wait is exact

  /** `b` was just refused at its `lastRefill` and needs until `deadline` for a whole token. */
  ghost predicate RefusedUntil(b: BucketState, capacity: nat, rate: real, deadline: real) {
    && capacity >= 1
    && Sound(b, capacity, rate)
    && b.tokens < 1.0
    && b.tokens + (deadline - b.lastRefill) * b.refillRate == 1.0
  }

  lemma RefusedCall(b: BucketState, capacity: nat, rate: real, deadline: real, now: real)
    requires RefusedUntil(b, capacity, rate, deadline)
    requires b.lastRefill <= now
    ensures Consume(b, now).1 == if now >= deadline then Allowed else Wait(deadline - now)
    ensures now < deadline ==> RefusedUntil(Consume(b, now).0, capacity, rate, deadline)
  {
    hide Consume, Decide;
    var r := b.refillRate;
    var gained, missing := (now - b.lastRefill) * r, (deadline - now) * r;
    AddSpans(b.lastRefill, now, deadline, r);
    ProductSign(now - b.lastRefill, r, gained);
    ProductSign(deadline - now, r, missing);
    ProductSign(deadline - b.lastRefill, r, (deadline - b.lastRefill) * r);
    assert b.tokens + gained == 1.0 - missing;
    ConsumeByGain(b, gained, now);
    DecideCases(Min(b.tokens + gained, b.capacity), r);
    if now < deadline {
      QuotientIs(missing, deadline - now, r);
    }
  }

  lemma {:induction false} RefusedStretch(
    b: BucketState, capacity: nat, rate: real, deadline: real, times: seq<real>)
    requires RefusedUntil(b, capacity, rate, deadline)
    requires times != []
    requires MonotoneFrom(b.lastRefill, times)
    requires forall k :: 0 <= k < |times| - 1 ==> times[k] < deadline
    ensures Run(b, times)[|times| - 1]
         == if times[|times| - 1] >= deadline then Allowed else Wait(deadline - times[|times| - 1])
    decreases |times|
  {
    RefusedCall(b, capacity, rate, deadline, times[0]);
    if |times| > 1 {
      assert times[0] < deadline;
      var b' := Consume(b, times[0]).0;
      ConsumeKeepsSound(b, capacity, rate, times[0]);
      RefusedStretch(b', capacity, rate, deadline, times[1..]);
      assert Run(b, times)[1..] == Run(b', times[1..]);
    }
  }

  lemma RefusalSetsDeadline(b: BucketState, capacity: nat, rate: real, now: real)
    requires Sound(b, capacity, rate)
    requires rate > 0.0 ==> capacity >= 1
    requires Consume(b, now).1.Wait?
    ensures RefusedUntil(Consume(b, now).0, capacity, rate, now + Consume(b, now).1.secs)
  {
    ConsumeKeepsSound(b, capacity, rate, now);
    var (b', out) := Consume(b, now);
    assert out.secs * rate == 1.0 - b'.tokens;
    assert now + out.secs - b'.lastRefill == out.secs;
  }

  /** What follows a refusal: a bucket refused until the deadline, and the calls that come next. */
  lemma AfterRefusal(capacity: nat, window: real, times: seq<real>, i: nat, j: nat) returns (b: BucketState)
    requires window > 0.0 && Monotone(times)
    requires i < j < |times|
    requires FreshRun(capacity, window, times)[i].Wait?
    ensures RefusedUntil(b, capacity, Rate(capacity, window), times[i] + FreshRun(capacity, window, times)[i].secs)
    ensures MonotoneFrom(b.lastRefill, times[i + 1..j + 1])
    ensures FreshRun(capacity, window, times)[j] == Run(b, times[i + 1..j + 1])[j - i - 1]
  {
    hide Consume, Rate, NewBucket, Sound, RefusedUntil, FreshRun, Decide, Refilled;
    var outs := FreshRun(capacity, window, times);
    var rate := Rate(capacity, window);
    var b0 := FreshRunFrom(capacity, window, times, i);
    b := Consume(b0, times[i]).0;
    assert outs[i..][0] == outs[i] && times[i..][0] == times[i];
    assert Consume(b0, times[i]).1 == outs[i];
    RefusalSetsDeadline(b0, capacity, rate, times[i]);
    ConsumeKeepsSound(b0, capacity, rate, times[i]);
    var rest := times[i + 1..j + 1];
    assert times[i..][1..][..j - i] == rest;
    MonotoneSlice(times, i, j + 1);
    RunSplit(b, times[i..][1..], j - i);
    assert outs[j] == outs[i..][1..][..j - i][j - i - 1];
  }

  /** The advertised wait is exact. After call i is refused with wait r, each later call made
      before t_i + r is refused with exactly the time that is left, whatever refused calls came
      in between, and the first call at or after t_i + r is allowed. */
  lemma WaitIsExact(capacity: nat, window: real, times: seq<real>, i: nat, j: nat)
    requires window > 0.0 && Monotone(times)
    requires i < j < |times|
    requires FreshRun(capacity, window, times)[i].Wait?
    requires forall k :: i < k < j ==> times[k] < times[i] + FreshRun(capacity, window, times)[i].secs
    ensures FreshRun(capacity, window, times)[j]
         == var left := times[i] + FreshRun(capacity, window, times)[i].secs - times[j];
            (if left <= 0.0 then Allowed else Wait(left))
  {
    hide *;
    var b := AfterRefusal(capacity, window, times, i, j);
    var deadline := times[i] + FreshRun(capacity, window, times)[i].secs;
    RefusedStretch(b, capacity, Rate(capacity, window), deadline, times[i + 1..j + 1]);
  }

  /** `retry_secs.ceil() as u64` of the 429 response. */
  function RetryAfterHeader(secs: real): (h: int) {
    var f := secs.Floor;
    if f as real == secs then f else f + 1
  }

  /** A client that waits the number of whole seconds in the `retry-after` header gets its
      token, and no smaller whole number would do. */
  lemma RetryAfterHeaderIsTight(capacity: nat, window: real, times: seq<real>, i: nat, wait: int)
    requires window > 0.0 && Monotone(times)
    requires i + 1 < |times|
    requires FreshRun(capacity, window, times)[i].Wait?
    requires times[i + 1] == times[i] + wait as real
    ensures FreshRun(capacity, window, times)[i + 1].Allowed?
       <==> wait >= RetryAfterHeader(FreshRun(capacity, window, times)[i].secs)
  {
    WaitIsExact(capacity, window, times, i, i + 1);
    var s := FreshRun(capacity, window, times)[i].secs;
    assert s.Floor as real <= s < s.Floor as real + 1.0;
  }

  /** A bucket of capacity zero refuses every call for good, and only such a bucket does. */
  lemma NeverIffNoCapacity(capacity: nat, window: real, times: seq<real>, i: nat)
    requires window > 0.0
    requires i < |times|
    ensures FreshRun(capacity, window, times)[i].Never? <==> capacity == 0
  {
    var b := FreshRunFrom(capacity, window, times, i);
    assert FreshRun(capacity, window, times)[i..][0] == FreshRun(capacity, window, times)[i];
    assert Run(b, times[i..])[0] == Consume(b, times[i]).1;
  }
}
