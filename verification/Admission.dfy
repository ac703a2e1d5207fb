/** Connection admission, guards and drain (arvik-hyper/src/server.rs) as a transition system.

    Each atomic operation on the shared counter, each first poll, each drop and each join is a step
    of its own, so a run interleaves any number of callers and tasks in any order. */
module Admission {
  import opened Wrappers

  const USIZE: nat := 0x1_0000_0000_0000_0000

  /** The life of one connection. `Looping(seen)` is inside the compare-and-swap loop with
      `current == seen`. `Unpolled` is spawned but holds no guard yet; `Running` holds one;
      `Done` has dropped it; `Leaked` was aborted before it ever had one. */
  datatype Stage =
    | Entered | Looping(seen: nat) | Refused
    | Admitted | Unpolled | Running | Done | Leaked

  datatype Phase = Accepting | Draining | Aborting | Drained

  datatype State = State(active: nat, conns: map<nat, Stage>, joinSet: set<nat>, phase: Phase)

  const INIT := State(0, map[], {}, Accepting)

  datatype Action =
    | Arrive(c: nat)
    | Load(c: nat)                      // active.load
    | Attempt(c: nat, spurious: bool)   // the test against max, then compare_exchange_weak
    | FetchAdd(c: nat)                  // no limit configured
    | Spawn(c: nat)
    | FirstPoll(c: nat)                 // ConnectionGuard::new
    | DropGuard(c: nat)                 // its future returns, panics or is cancelled
    | CancelUnpolled(c: nat)            // an aborted future dropped before its first poll
    | JoinNext(c: nat)
    | Shutdown
    | DrainTimeout
    | DrainEnd

  function Plus(n: nat): nat { (n + 1) % USIZE }

  /** `fetch_sub(1)` on a `usize` wraps. */
  function Minus(n: nat): nat { if n == 0 then USIZE - 1 else n - 1 }

  /** One turn of the loop in `try_admit_connection`: the new stage and the new counter. A weak
      exchange may fail for no reason; a failure reports the value it found. */
  function TryOnce(max: nat, seen: nat, active: nat, spurious: bool): (Stage, nat) {
    if seen >= max then (Refused, active)
    else if active == seen && !spurious then (Admitted, Plus(seen))
    else (Looping(active), active)
  }

  predicate InCall(g: Stage) { g.Entered? || g.Looping? }

  predicate Ended(g: Stage) { g.Done? || g.Leaked? }

  predicate Is(s: State, c: nat, g: Stage) { c in s.conns && s.conns[c] == g }

  /** One step, where it is enabled. `limit` is the configured `max_connections`. */
  function Step(limit: Option<nat>, s: State, a: Action): Option<State> {
    match a
    case Arrive(c) =>
      if s.phase == Accepting && c !in s.conns then Some(s.(conns := s.conns[c := Entered])) else None
    case Load(c) =>
      if limit.Some? && Is(s, c, Entered) then Some(s.(conns := s.conns[c := Looping(s.active)])) else None
    case Attempt(c, spurious) =>
      if limit.Some? && c in s.conns && s.conns[c].Looping? then
        var (g, n) := TryOnce(limit.value, s.conns[c].seen, s.active, spurious);
        Some(s.(active := n, conns := s.conns[c := g]))
      else None
    case FetchAdd(c) =>
      if limit.None? && Is(s, c, Entered)
      then Some(s.(active := Plus(s.active), conns := s.conns[c := Admitted])) else None
    case Spawn(c) =>
      if Is(s, c, Admitted)
      then Some(s.(conns := s.conns[c := Unpolled], joinSet := s.joinSet + {c})) else None
    case FirstPoll(c) =>
      if s.phase != Aborting && Is(s, c, Unpolled) then Some(s.(conns := s.conns[c := Running])) else None
    case DropGuard(c) =>
      if Is(s, c, Running)
      then Some(s.(active := Minus(s.active), conns := s.conns[c := Done])) else None
    case CancelUnpolled(c) =>
      if s.phase == Aborting && Is(s, c, Unpolled) then Some(s.(conns := s.conns[c := Leaked])) else None
    case JoinNext(c) =>
      if s.phase != Drained && c in s.joinSet && c in s.conns && Ended(s.conns[c])
      then Some(s.(joinSet := s.joinSet - {c})) else None
    case Shutdown =>
      // the accept loop is between connections when it sees the signal
      if s.phase == Accepting && forall c :: c in s.conns ==> !InCall(s.conns[c]) && !s.conns[c].Admitted?
      then Some(s.(phase := if s.joinSet == {} then Drained else Draining)) else None
    case DrainTimeout =>
      if s.phase == Draining then Some(s.(phase := if s.joinSet == {} then Drained else Aborting)) else None
    case DrainEnd =>
      if (s.phase == Draining || s.phase == Aborting) && s.joinSet == {}
      then Some(s.(phase := Drained)) else None
  }

  // ---------------------------------------------------------------- the loop as code

  class AtomicUsize {
    var value: nat

    constructor (n: nat)
      ensures value == n
    {
      value := n;
    }

    /** Ok(current) or Err(what was found). */
    method CompareExchangeWeak(current: nat, next: nat, spurious: bool) returns (r: Result<nat, nat>)
      modifies this
      ensures r == if old(value) == current && !spurious then Success(current) else Failure(old(value))
      ensures value == if r.Success? then next else old(value)
    {
      if value == current && !spurious {
        value := next;
        return Success(current);
      }
      return Failure(value);
    }
  }

  /** What the rest of the program does between two turns of a caller's loop: it leaves the counter
      at `value`, and the exchange that follows may fail spuriously. */
  datatype Meanwhile = Meanwhile(value: nat, spurious: bool)

  /** What the exchange of turn k is against: the counter as the load or the exchange before found it. */
  function Found(start: nat, env: seq<Meanwhile>, k: nat): nat
    requires k <= |env|
  {
    if k == 0 then start else env[k - 1].value
  }

  /** The first k turns all passed the test against `max`, and all their exchanges failed. */
  ghost predicate FailsUpTo(max: nat, start: nat, env: seq<Meanwhile>, k: nat)
    requires k <= |env|
  {
    forall j :: 0 <= j < k ==> Found(start, env, j) < max && (env[j].spurious || env[j].value != Found(start, env, j))
  }

  ghost predicate AdmitsAt(max: nat, start: nat, env: seq<Meanwhile>, k: nat)
    requires k < |env|
  {
    FailsUpTo(max, start, env, k) && env[k].value == Found(start, env, k) < max && !env[k].spurious
  }

  ghost predicate RefusesAt(max: nat, start: nat, env: seq<Meanwhile>, k: nat)
    requires k <= |env|
  {
    FailsUpTo(max, start, env, k) && Found(start, env, k) >= max
  }

  /** The turns of one caller, read off `TryOnce`. */
  function Turns(max: nat, seen: nat, active: nat, env: seq<Meanwhile>): (Stage, nat)
    decreases |env|
  {
    if seen >= max then (Refused, active)
    else if env == [] then (Looping(seen), active)
    else
      var (g, n) := TryOnce(max, seen, env[0].value, env[0].spurious);
      if g.Looping? then Turns(max, g.seen, n, env[1..]) else (g, n)
  }

  /** The body of `try_admit_connection` under a limit, run against any environment. `None` means
      the environment's script ran out before the loop did. */
  method TryAdmitConnection(max: nat, active: AtomicUsize, env: seq<Meanwhile>) returns (admitted: Option<bool>)
    requires max < USIZE
    modifies active
    ensures var (g, n) := Turns(max, old(active.value), old(active.value), env);
            && active.value == n
            && admitted == (if g.Admitted? then Some(true) else if g.Refused? then Some(false) else None)
    ensures admitted == Some(true) ==> 1 <= active.value <= max
    ensures admitted == Some(false) ==> active.value >= max
    ensures admitted == Some(true) ==>
      exists k :: 0 <= k < |env| && AdmitsAt(max, old(active.value), env, k) && active.value == env[k].value + 1
    ensures admitted == Some(false) ==>
      exists k :: 0 <= k <= |env| && RefusesAt(max, old(active.value), env, k)
                  && active.value == Found(old(active.value), env, k)
    ensures admitted == None ==>
      FailsUpTo(max, old(active.value), env, |env|) && active.value == Found(old(active.value), env, |env|) < max
  {
    var current := active.value;
    var k := 0;
    while true
      invariant k <= |env|
      invariant active.value == current == Found(old(active.value), env, k)
      invariant FailsUpTo(max, old(active.value), env, k)
      invariant Turns(max, old(active.value), old(active.value), env) == Turns(max, current, active.value, env[k..])
      decreases |env| - k
    {
      if current >= max {
        return Some(false);
      }
      if k == |env| {
        return None;
      }
      active.value := env[k].value;
      var r := active.CompareExchangeWeak(current, current + 1, env[k].spurious);
      assert env[k..][0] == env[k] && env[k..][1..] == env[k + 1..];
      match r {
        case Success(_) => return Some(true);
        case Failure(next) => current := next;
      }
      k := k + 1;
    }
  }

  // ---------------------------------------------------------------- the count

  predicate Holds(g: Stage) { g.Admitted? || g.Unpolled? || g.Running? || g.Leaked? }

  /** Connections that were admitted and whose guard has not dropped. */
  function Holders(s: State): set<nat> { set c | c in s.conns && Holds(s.conns[c]) }

  function LeakedConns(s: State): set<nat> { set c | c in s.conns && s.conns[c].Leaked? }

  /** Tasks in the join set were spawned, a spawned task that left it has ended, and once the accept
      loop is over no admission is in flight. */
  ghost predicate Shape(s: State) {
    && (forall c :: c in s.joinSet ==>
          c in s.conns && (s.conns[c].Unpolled? || s.conns[c].Running? || Ended(s.conns[c])))
    && (forall c :: c in s.conns && (s.conns[c].Unpolled? || s.conns[c].Running?) ==> c in s.joinSet)
    && (s.phase != Accepting ==> forall c :: c in s.conns ==> !InCall(s.conns[c]) && !s.conns[c].Admitted?)
    && (s.phase == Drained ==> s.joinSet == {})
  }

  /** The counter is the number of holders, at most the limit. */
  ghost predicate Inv(limit: Option<nat>, s: State) {
    && s.active == |Holders(s)| % USIZE
    && (limit.Some? ==> |Holders(s)| <= limit.value)
    && Shape(s)
  }

  function HeldBy(s: State, c: nat): nat { if c in s.conns && Holds(s.conns[c]) then 1 else 0 }

  lemma HoldersUpdate(s: State, s': State, c: nat, g: Stage)
    requires s'.conns == s.conns[c := g]
    ensures |Holders(s')| == |Holders(s)| - HeldBy(s, c) + HeldBy(s', c)
    ensures c in Holders(s) ==> |Holders(s)| >= 1
  {
    hide Holds;
    var h, others := Holders(s), Holders(s) - {c};
    assert c in h <==> HeldBy(s, c) == 1;
    assert h == if c in h then others + {c} else others;
    assert Holders(s') == if Holds(g) then others + {c} else others;
  }

  lemma ModIs(n: int, q: int, r: int)
    requires n == q * USIZE + r && 0 <= r < USIZE
    ensures n % USIZE == r
  {
  }

  lemma ModSucc(n: nat)
    ensures Plus(n % USIZE) == (n + 1) % USIZE
    ensures n >= 1 ==> Minus(n % USIZE) == (n - 1) % USIZE
  {
    var q, r := n / USIZE, n % USIZE;
    assert n == q * USIZE + r;
    if r + 1 < USIZE { ModIs(n + 1, q, r + 1); } else { ModIs(n + 1, q + 1, 0); }
    if n >= 1 {
      if r >= 1 { ModIs(n - 1, q, r - 1); } else { ModIs(n - 1, q - 1, USIZE - 1); }
    }
  }

  lemma InitHolds(limit: Option<nat>)
    ensures Inv(limit, INIT)
  {
    assert Holders(INIT) == {};
  }

  /** The connection a step is about, for the steps that are about one. */
  function Subject(a: Action): Option<nat> {
    match a
    case Arrive(c) => Some(c)
    case Load(c) => Some(c)
    case Attempt(c, _) => Some(c)
    case FetchAdd(c) => Some(c)
    case Spawn(c) => Some(c)
    case FirstPoll(c) => Some(c)
    case DropGuard(c) => Some(c)
    case CancelUnpolled(c) => Some(c)
    case JoinNext(_) => None
    case Shutdown => None
    case DrainTimeout => None
    case DrainEnd => None
  }

  /** A step touches at most its subject's stage. */
  lemma StepIsLocal(limit: Option<nat>, s: State, a: Action)
    requires Step(limit, s, a).Some?
    ensures var s' := Step(limit, s, a).value;
            match Subject(a)
            case Some(c) => c in s'.conns && s'.conns == s.conns[c := s'.conns[c]]
            case None => s'.conns == s.conns && s'.active == s.active
  {
  }

  /** What a step does to the counter it does to its subject's claim on the count. */
  lemma StepMovesCounter(limit: Option<nat>, s: State, a: Action)
    requires Step(limit, s, a).Some? && Subject(a).Some?
    requires limit.Some? ==> limit.value < USIZE
    ensures var s' := Step(limit, s, a).value;
            var c := Subject(a).value;
            match HeldBy(s', c) - HeldBy(s, c)
            case 1 => s'.active == Plus(s.active) && (limit.Some? ==> s.active < limit.value)
            case -1 => s'.active == Minus(s.active)
            case _ => s'.active == s.active && HeldBy(s', c) == HeldBy(s, c)
  {
  }

  lemma StepKeepsCount(limit: Option<nat>, s: State, a: Action)
    requires Step(limit, s, a).Some?
    requires limit.Some? ==> limit.value < USIZE
    requires s.active == |Holders(s)| % USIZE
    requires limit.Some? ==> |Holders(s)| <= limit.value
    ensures var s' := Step(limit, s, a).value;
            && s'.active == |Holders(s')| % USIZE
            && (limit.Some? ==> |Holders(s')| <= limit.value)
  {
    hide Step;
    var s' := Step(limit, s, a).value;
    StepIsLocal(limit, s, a);
    match Subject(a) {
      case Some(c) =>
        StepMovesCounter(limit, s, a);
        HoldersUpdate(s, s', c, s'.conns[c]);
        ModSucc(|Holders(s)|);
      case None =>
        assert Holders(s') == Holders(s);
    }
  }

  /** Every step keeps the invariant: the counter never drifts, never exceeds the limit, and a
      guard never drops when it is zero. */
  lemma StepKeepsInv(limit: Option<nat>, s: State, a: Action)
    requires Inv(limit, s) && Step(limit, s, a).Some?
    requires limit.Some? ==> limit.value < USIZE
    ensures Inv(limit, Step(limit, s, a).value)
    ensures a.DropGuard? && limit.Some? ==> s.active >= 1
  {
    StepKeepsCount(limit, s, a);
    if a.DropGuard? {
      assert a.c in Holders(s);
    }
    StepKeepsShape(limit, s, a);
  }

  lemma StepKeepsShape(limit: Option<nat>, s: State, a: Action)
    requires Shape(s) && Step(limit, s, a).Some?
    ensures Shape(Step(limit, s, a).value)
  {
    hide Plus, Minus;
  }

  // ---------------------------------------------------------------- runs

  /** A run: states[i] goes to states[i + 1] by actions[i]. */
  ghost predicate IsRun(limit: Option<nat>, states: seq<State>, actions: seq<Action>) {
    && |states| == |actions| + 1
    && states[0] == INIT
    && (limit.Some? ==> limit.value < USIZE)
    && forall i :: 0 <= i < |actions| ==> Step(limit, states[i], actions[i]) == Some(states[i + 1])
  }

  lemma {:induction false} RunKeepsInv(limit: Option<nat>, states: seq<State>, actions: seq<Action>, i: nat)
    requires IsRun(limit, states, actions)
    requires i < |states|
    ensures Inv(limit, states[i])
  {
    hide Inv, Step;
    if i == 0 {
      InitHolds(limit);
    } else {
      RunKeepsInv(limit, states, actions, i - 1);
      assert Step(limit, states[i - 1], actions[i - 1]) == Some(states[i]);
      StepKeepsInv(limit, states[i - 1], actions[i - 1]);
    }
  }

  /** At every moment of every interleaving the counter is the number of admitted connections
      whose guard has not dropped, and that number respects the limit. */
  lemma CountIsExact(max: nat, states: seq<State>, actions: seq<Action>, i: nat)
    requires IsRun(Some(max), states, actions)
    requires i < |states|
    ensures states[i].active == |Holders(states[i])| <= max
  {
    RunKeepsInv(Some(max), states, actions, i);
  }

  /** Without a limit the counter is exact up to the width of a `usize`. */
  lemma UnlimitedCount(states: seq<State>, actions: seq<Action>, i: nat)
    requires IsRun(None, states, actions)
    requires i < |states|
    ensures states[i].active == |Holders(states[i])| % USIZE
    ensures forall c :: c in states[i].conns ==> !states[i].conns[c].Refused? && !states[i].conns[c].Looping?
  {
    RunKeepsInv(None, states, actions, i);
    NobodyLoops(states, actions, i);
  }

  lemma {:induction false} NobodyLoops(states: seq<State>, actions: seq<Action>, i: nat)
    requires IsRun(None, states, actions)
    requires i < |states|
    ensures forall c :: c in states[i].conns ==> !states[i].conns[c].Refused? && !states[i].conns[c].Looping?
  {
    if i > 0 {
      NobodyLoops(states, actions, i - 1);
      assert Step(None, states[i - 1], actions[i - 1]) == Some(states[i]);
    }
  }

  // ---------------------------------------------------------------- progress of the loop

  /** What an exchange does to its caller. It is refused only at the limit; below it an exchange fails
      only spuriously or because the counter has moved, and then the caller holds the new value. */
  lemma AttemptOutcome(max: nat, s: State, c: nat, spurious: bool)
    requires Step(Some(max), s, Attempt(c, spurious)).Some?
    ensures var s' := Step(Some(max), s, Attempt(c, spurious)).value;
      && c in s.conns && s.conns[c].Looping? && c in s'.conns
      && (s'.conns[c] == Refused <==> s.conns[c].seen >= max)
      && (s'.conns[c] == Admitted <==> s.conns[c].seen < max && s.conns[c].seen == s.active && !spurious)
      && (s'.conns[c] == Refused || s'.conns[c] == Admitted || s'.conns[c] == Looping(s'.active))
  {
  }

  /** Action i gives c the counter as it then is. */
  predicate Reads(a: Action, c: nat) { a == Load(c) || (a.Attempt? && a.c == c) }

  lemma {:induction false} SeenStays(
    max: nat, states: seq<State>, actions: seq<Action>, c: nat, i: nat, j: nat)
    requires IsRun(Some(max), states, actions)
    requires i < j < |states| && Reads(actions[i], c)
    requires c in states[i + 1].conns && states[i + 1].conns[c].Looping?
    requires forall k :: i < k < j ==> !Reads(actions[k], c)
    ensures c in states[j].conns && states[j].conns[c] == Looping(states[i + 1].active)
    decreases j
  {
    if j == i + 1 {
      assert Step(Some(max), states[i], actions[i]) == Some(states[i + 1]);
    } else {
      SeenStays(max, states, actions, c, i, j - 1);
      assert Step(Some(max), states[j - 1], actions[j - 1]) == Some(states[j]);
    }
  }

  lemma {:induction false} MovedBetween(states: seq<State>, i: nat, j: nat) returns (k: nat)
    requires i <= j < |states| && states[i].active != states[j].active
    ensures i <= k < j && states[k].active != states[k + 1].active
    decreases j
  {
    k := j - 1;
    if states[j - 1].active == states[j].active {
      k := MovedBetween(states, i, j - 1);
    }
  }

  lemma StepOfRun(limit: Option<nat>, states: seq<State>, actions: seq<Action>, i: nat)
    requires IsRun(limit, states, actions) && i < |actions|
    ensures |states| == |actions| + 1 && Step(limit, states[i], actions[i]) == Some(states[i + 1])
  {
  }

  lemma CounterMovers(max: nat, s: State, a: Action)
    requires Step(Some(max), s, a).Some? && Step(Some(max), s, a).value.active != s.active
    ensures a.DropGuard? || a.Attempt?
  {
  }

  /** The loop is lock-free: an exchange that fails, but not spuriously, fails because another
      connection was admitted or another guard dropped since the caller last looked. */
  lemma FailureIsOthersProgress(
    max: nat, states: seq<State>, actions: seq<Action>, c: nat, i: nat, j: nat) returns (k: nat)
    requires IsRun(Some(max), states, actions)
    requires i < j < |actions| && Reads(actions[i], c) && actions[j] == Attempt(c, false)
    requires forall k :: i < k < j ==> !Reads(actions[k], c)
    requires c in states[i + 1].conns && states[i + 1].conns[c].Looping?
    requires c in states[j + 1].conns && states[j + 1].conns[c].Looping?
    ensures i < k < j && states[k].active != states[k + 1].active
    ensures actions[k].DropGuard? || (actions[k].Attempt? && actions[k].c != c)
  {
    hide Step, IsRun;
    StepOfRun(Some(max), states, actions, j);
    SeenStays(max, states, actions, c, i, j);
    AttemptOutcome(max, states[j], c, false);
    k := MovedBetween(states, i + 1, j);
    StepOfRun(Some(max), states, actions, k);
    CounterMovers(max, states[k], actions[k]);
  }

  // ---------------------------------------------------------------- refusals

  predicate CallingAt(s: State, c: nat) { c in s.conns && InCall(s.conns[c]) }

  ghost predicate CallingThrough(states: seq<State>, c: nat, i: nat, j: nat)
    requires i <= j < |states|
  {
    forall k :: i <= k <= j ==> CallingAt(states[k], c)
  }

  /** What a caller has seen was the counter's value at some moment of its own call. */
  lemma {:induction false} SeenWasCurrent(
    limit: Option<nat>, states: seq<State>, actions: seq<Action>, c: nat, n: nat) returns (i: nat)
    requires IsRun(limit, states, actions)
    requires n < |states| && c in states[n].conns && states[n].conns[c].Looping?
    ensures i <= n && states[i].active == states[n].conns[c].seen
    ensures CallingThrough(states, c, i, n)
    decreases n
  {
    var p, a := states[n - 1], actions[n - 1];
    assert Step(limit, p, a) == Some(states[n]);
    if a == Load(c) || (a.Attempt? && a.c == c) {
      i := n - 1;
      assert CallingAt(states[n - 1], c) && CallingAt(states[n], c);
    } else {
      i := SeenWasCurrent(limit, states, actions, c, n - 1);
    }
  }

  /** No refusal is spurious: a connection that is turned away was in its call at a moment when
      exactly `max` admitted connections were alive. */
  lemma RefusalSawFull(max: nat, states: seq<State>, actions: seq<Action>, c: nat, spurious: bool, j: nat)
    returns (i: nat)
    requires IsRun(Some(max), states, actions)
    requires j < |actions| && actions[j] == Attempt(c, spurious)
    requires Is(states[j + 1], c, Refused)
    ensures i <= j && CallingThrough(states, c, i, j)
    ensures |Holders(states[i])| == max
  {
    assert Step(Some(max), states[j], actions[j]) == Some(states[j + 1]);
    i := SeenWasCurrent(Some(max), states, actions, c, j);
    CountIsExact(max, states, actions, i);
  }

  // ---------------------------------------------------------------- drain

  /** Once the server reports itself drained no task is left, limit or not, and the counter is the
      number of tasks that were aborted before their first poll. */
  lemma DrainedMeansEnded(limit: Option<nat>, states: seq<State>, actions: seq<Action>, i: nat)
    requires IsRun(limit, states, actions)
    requires i < |states| && states[i].phase == Drained
    ensures states[i].joinSet == {}
    ensures forall c :: c in states[i].conns ==> states[i].conns[c].Refused? || Ended(states[i].conns[c])
    ensures states[i].active == |LeakedConns(states[i])| % USIZE
    ensures limit.Some? ==> states[i].active == |LeakedConns(states[i])|
  {
    var s := states[i];
    RunKeepsInv(limit, states, actions, i);
    forall c | c in s.conns
      ensures s.conns[c].Refused? || Ended(s.conns[c])
    {
      assert !InCall(s.conns[c]) && !s.conns[c].Admitted?;
      assert c !in s.joinSet;
    }
    assert Holders(s) == LeakedConns(s);
  }

  /** Steps that abort a task before its first poll. */
  function Cancels(actions: seq<Action>): nat {
    if actions == [] then 0
    else Cancels(actions[..|actions| - 1]) + (if actions[|actions| - 1].CancelUnpolled? then 1 else 0)
  }

  lemma StepStages(limit: Option<nat>, s: State, a: Action)
    requires Step(limit, s, a).Some?
    ensures var s' := Step(limit, s, a).value;
      if a.CancelUnpolled? then a.c in s.conns && s.conns[a.c] == Unpolled && s'.conns == s.conns[a.c := Leaked]
      else match Subject(a)
           case Some(c) =>
             c in s'.conns && s'.conns == s.conns[c := s'.conns[c]]
             && !s'.conns[c].Leaked? && (c in s.conns ==> !s.conns[c].Leaked?)
           case None => s'.conns == s.conns
  {
    StepIsLocal(limit, s, a);
  }

  lemma StepLeaks(limit: Option<nat>, s: State, a: Action)
    requires Step(limit, s, a).Some?
    ensures var s' := Step(limit, s, a).value;
      |LeakedConns(s')| == |LeakedConns(s)| + if a.CancelUnpolled? then 1 else 0
  {
    hide Step;
    StepStages(limit, s, a);
    var s' := Step(limit, s, a).value;
    if a.CancelUnpolled? {
      assert LeakedConns(s') == LeakedConns(s) + {a.c};
    } else {
      assert LeakedConns(s') == LeakedConns(s);
    }
  }

  /** Nothing else leaks, and nothing that has leaked is ever recovered. */
  lemma {:induction false} LeaksAreCancels(limit: Option<nat>, states: seq<State>, actions: seq<Action>, i: nat)
    requires IsRun(limit, states, actions)
    requires i < |states|
    ensures |LeakedConns(states[i])| == Cancels(actions[..i])
  {
    if i == 0 {
      assert LeakedConns(INIT) == {};
    } else {
      LeaksAreCancels(limit, states, actions, i - 1);
      assert Step(limit, states[i - 1], actions[i - 1]) == Some(states[i]);
      StepLeaks(limit, states[i - 1], actions[i - 1]);
      assert actions[..i][..i - 1] == actions[..i - 1];
    }
  }

  /** What a drain leaves in the counter, said of the steps taken: one for each task aborted before
      its first poll. Under a limit it is zero if and only if there was no such step. */
  lemma DrainLeavesCancels(limit: Option<nat>, states: seq<State>, actions: seq<Action>, i: nat)
    requires IsRun(limit, states, actions)
    requires i < |states| && states[i].phase == Drained
    ensures states[i].active == Cancels(actions[..i]) % USIZE
    ensures limit.Some? ==> states[i].active == Cancels(actions[..i])
    ensures limit.Some? ==> (states[i].active == 0 <==> forall k :: 0 <= k < i ==> !actions[k].CancelUnpolled?)
  {
    DrainedMeansEnded(limit, states, actions, i);
    LeaksAreCancels(limit, states, actions, i);
    CancelsZero(actions, i);
  }

  lemma {:induction false} CancelsZero(actions: seq<Action>, i: nat)
    requires i <= |actions|
    ensures Cancels(actions[..i]) == 0 <==> forall k :: 0 <= k < i ==> !actions[k].CancelUnpolled?
  {
    if i > 0 {
      CancelsZero(actions, i - 1);
      assert actions[..i][..i - 1] == actions[..i - 1];
    }
  }

  /** The states of a server of one connection that is aborted before its first poll. */
  function Lone(stage: Stage, active: nat, joined: set<nat>, phase: Phase): State {
    State(active, map[0 := stage], joined, phase)
  }

  lemma LoneAdmission()
    ensures Step(Some(1), INIT, Arrive(0)) == Some(Lone(Entered, 0, {}, Accepting))
    ensures Step(Some(1), Lone(Entered, 0, {}, Accepting), Load(0)) == Some(Lone(Looping(0), 0, {}, Accepting))
    ensures Step(Some(1), Lone(Looping(0), 0, {}, Accepting), Attempt(0, false))
         == Some(Lone(Admitted, 1, {}, Accepting))
    ensures Step(Some(1), Lone(Admitted, 1, {}, Accepting), Spawn(0)) == Some(Lone(Unpolled, 1, {0}, Accepting))
  {
    assert forall g, h: Stage :: map[0 := g][0 := h] == map[0 := h];
    assert {} + {0} == {0};
  }

  lemma LoneDrain()
    ensures Step(Some(1), Lone(Unpolled, 1, {0}, Accepting), Shutdown) == Some(Lone(Unpolled, 1, {0}, Draining))
    ensures Step(Some(1), Lone(Unpolled, 1, {0}, Draining), DrainTimeout) == Some(Lone(Unpolled, 1, {0}, Aborting))
  {
    assert 0 in {0};
  }

  lemma LoneAbort()
    ensures Step(Some(1), Lone(Unpolled, 1, {0}, Aborting), CancelUnpolled(0)) == Some(Lone(Leaked, 1, {0}, Aborting))
    ensures Step(Some(1), Lone(Leaked, 1, {0}, Aborting), JoinNext(0)) == Some(Lone(Leaked, 1, {}, Aborting))
    ensures Step(Some(1), Lone(Leaked, 1, {}, Aborting), DrainEnd) == Some(Lone(Leaked, 1, {}, Drained))
  {
    assert map[0 := Unpolled][0 := Leaked] == map[0 := Leaked];
    assert 0 in {0} && {0} - {0} == {};
  }

  /** It does happen: one connection, admitted and spawned, is aborted before its first poll, and the
      drained server still counts it. */
  lemma CancelledTaskStaysCounted() returns (states: seq<State>, actions: seq<Action>)
    ensures IsRun(Some(1), states, actions)
    ensures |actions| == 9 && states[9].phase == Drained && states[9].active == 1
  {
    hide Step;
    actions := [Arrive(0), Load(0), Attempt(0, false), Spawn(0), Shutdown, DrainTimeout, CancelUnpolled(0),
                JoinNext(0), DrainEnd];
    states := [
      INIT,
      Lone(Entered, 0, {}, Accepting), Lone(Looping(0), 0, {}, Accepting), Lone(Admitted, 1, {}, Accepting),
      Lone(Unpolled, 1, {0}, Accepting), Lone(Unpolled, 1, {0}, Draining), Lone(Unpolled, 1, {0}, Aborting),
      Lone(Leaked, 1, {0}, Aborting), Lone(Leaked, 1, {}, Aborting), Lone(Leaked, 1, {}, Drained)];
    LoneAdmission();
    LoneDrain();
    LoneAbort();
  }

  /** A task can leak only in the abort phase, so a drain that beats its timeout leaves the
      counter at zero. */
  lemma {:induction false} LeakNeedsAbort(limit: Option<nat>, states: seq<State>, actions: seq<Action>, i: nat)
    requires IsRun(limit, states, actions)
    requires i < |states|
    requires forall k :: 0 <= k < i ==> actions[k] != DrainTimeout
    ensures LeakedConns(states[i]) == {} && states[i].phase != Aborting
  {
    if i > 0 {
      LeakNeedsAbort(limit, states, actions, i - 1);
      assert Step(limit, states[i - 1], actions[i - 1]) == Some(states[i]);
      forall c | c in states[i].conns
        ensures !states[i].conns[c].Leaked?
      {
        if c in states[i - 1].conns { assert c !in LeakedConns(states[i - 1]); }
      }
    }
  }

  lemma GracefulDrainReachesZero(limit: Option<nat>, states: seq<State>, actions: seq<Action>, i: nat)
    requires IsRun(limit, states, actions)
    requires i < |states| && states[i].phase == Drained
    requires forall k :: 0 <= k < i ==> actions[k] != DrainTimeout
    ensures states[i].active == 0
  {
    DrainedMeansEnded(limit, states, actions, i);
    LeakNeedsAbort(limit, states, actions, i);
  }

  function Unfinished(s: State): set<nat> { set c | c in s.joinSet && c in s.conns && !Ended(s.conns[c]) }

  /** Work left once everything has been aborted. */
  function Remaining(s: State): nat {
    |s.joinSet| + |Unfinished(s)| + (if s.phase == Aborting then 1 else 0)
  }

  lemma AbortingActions(limit: Option<nat>, s: State, a: Action)
    requires Inv(limit, s) && s.phase == Aborting && Step(limit, s, a).Some?
    ensures a.DropGuard? || a.CancelUnpolled? || a.JoinNext? || a.DrainEnd?
    ensures a.DropGuard? || a.CancelUnpolled? ==> a.c in s.joinSet
  {
    hide Holders;
  }

  /** A task of the join set that ends leaves one task fewer to wait for. */
  lemma EndingShrinks(s: State, s': State, c: nat, g: Stage)
    requires c in s.joinSet && c in s.conns && !Ended(s.conns[c]) && Ended(g)
    requires s'.conns == s.conns[c := g] && s'.joinSet == s.joinSet && s'.phase == s.phase
    ensures Remaining(s') < Remaining(s)
  {
    assert c in Unfinished(s);
    assert Unfinished(s') == Unfinished(s) - {c};
  }

  lemma JoiningShrinks(s: State, s': State, c: nat)
    requires c in s.joinSet && c in s.conns && Ended(s.conns[c])
    requires s'.conns == s.conns && s'.joinSet == s.joinSet - {c} && s'.phase == s.phase
    ensures Remaining(s') < Remaining(s)
  {
    assert Unfinished(s') == Unfinished(s);
  }

  /** The abort phase ends: whatever step is taken, the work left shrinks, */
  lemma AbortingShrinks(limit: Option<nat>, s: State, a: Action)
    requires Inv(limit, s) && s.phase == Aborting
    requires Step(limit, s, a).Some?
    ensures Remaining(Step(limit, s, a).value) < Remaining(s)
    ensures Step(limit, s, a).value.phase in {Aborting, Drained}
  {
    hide Inv, TryOnce, Remaining;
    var s' := Step(limit, s, a).value;
    AbortingActions(limit, s, a);
    match a
    case DropGuard(c) => EndingShrinks(s, s', c, Done);
    case CancelUnpolled(c) => EndingShrinks(s, s', c, Leaked);
    case JoinNext(c) => JoiningShrinks(s, s', c);
    case DrainEnd => DrainEndShrinks(s, s');
    case _ => assert false;
  }

  lemma DrainEndShrinks(s: State, s': State)
    requires s.phase == Aborting && s' == s.(phase := Drained)
    ensures Remaining(s') < Remaining(s)
  {
    assert Unfinished(s') == Unfinished(s);
  }

  /** and until it is drained some step is enabled. */
  lemma AbortingIsLive(limit: Option<nat>, s: State) returns (a: Action)
    requires Inv(limit, s) && s.phase == Aborting
    ensures Step(limit, s, a).Some?
  {
    if s.joinSet == {} {
      a := DrainEnd;
    } else {
      var c :| c in s.joinSet;
      a := match s.conns[c]
        case Unpolled => CancelUnpolled(c)
        case Running => DropGuard(c)
        case _ => JoinNext(c);
    }
  }

  /** So an aborted drain runs to its end: from any state of the abort phase, any way of going on
      stops after at most `Remaining` steps, and where it can stop is `Drained`. */
  lemma {:induction false} AbortedDrainEnds(limit: Option<nat>, s: State) returns (path: seq<Action>, end: State)
    requires Inv(limit, s) && s.phase == Aborting
    requires limit.Some? ==> limit.value < USIZE
    ensures Follows(limit, s, path, end) && end.phase == Drained && |path| <= Remaining(s)
    decreases Remaining(s)
  {
    var a := AbortingIsLive(limit, s);
    AbortingShrinks(limit, s, a);
    StepKeepsInv(limit, s, a);
    var s' := Step(limit, s, a).value;
    if s'.phase == Drained {
      path, end := [a], s';
      assert Follows(limit, s', [], s');
    } else {
      var rest;
      rest, end := AbortedDrainEnds(limit, s');
      path := [a] + rest;
    }
  }

  ghost predicate Follows(limit: Option<nat>, s: State, path: seq<Action>, end: State)
    decreases |path|
  {
    if path == [] then s == end
    else Step(limit, s, path[0]).Some? && Follows(limit, Step(limit, s, path[0]).value, path[1..], end)
  }

  function Waiting(s: State): set<nat> { set c | c in s.joinSet && c in s.conns && s.conns[c].Unpolled? }

  /** Work left for the tasks of a drain: to be polled, to end, to be joined. */
  function DrainWork(s: State): nat { |s.joinSet| + |Unfinished(s)| + |Waiting(s)| }

  lemma DrainWorkShrinks(s: State, s': State, c: nat)
    requires c in s.joinSet && c in s.conns
    requires if Ended(s.conns[c]) then s' == s.(joinSet := s.joinSet - {c})
             else if s.conns[c].Unpolled? then s'.joinSet == s.joinSet && s'.conns == s.conns[c := Running]
             else s'.joinSet == s.joinSet && s'.conns == s.conns[c := Done]
    ensures DrainWork(s') < DrainWork(s)
  {
    if Ended(s.conns[c]) {
      assert Unfinished(s') == Unfinished(s) && Waiting(s') == Waiting(s);
    } else if s.conns[c].Unpolled? {
      assert c in Waiting(s);
      assert Unfinished(s') == Unfinished(s) && Waiting(s') == Waiting(s) - {c};
    } else {
      assert c in Unfinished(s);
      assert Unfinished(s') == Unfinished(s) - {c};
      assert Waiting(s') <= Waiting(s);
      SubsetSize(Waiting(s'), Waiting(s));
    }
  }

  lemma {:induction false} SubsetSize(a: set<nat>, b: set<nat>)
    requires a <= b
    ensures |a| <= |b|
  {
    assert b == a + (b - a);
  }

  /** A graceful drain never needs its timeout: from any state of it some way of going on polls,
      finishes and joins every task that is left, those never polled before included. */
  lemma {:induction false} GracefulDrainCanEnd(limit: Option<nat>, s: State)
    returns (path: seq<Action>, end: State)
    requires Inv(limit, s) && s.phase == Draining
    requires limit.Some? ==> limit.value < USIZE
    ensures Follows(limit, s, path, end) && end.phase == Drained && DrainTimeout !in path
    decreases DrainWork(s)
  {
    if s.joinSet == {} {
      path, end := [DrainEnd], s.(phase := Drained);
      assert Follows(limit, end, [], end);
    } else {
      var c :| c in s.joinSet;
      var a := match s.conns[c]
        case Unpolled => FirstPoll(c)
        case Running => DropGuard(c)
        case _ => JoinNext(c);
      var s' := Step(limit, s, a).value;
      DrainWorkShrinks(s, s', c);
      StepKeepsInv(limit, s, a);
      var rest;
      rest, end := GracefulDrainCanEnd(limit, s');
      path := [a] + rest;
    }
  }

  lemma {:induction false} AbortedPathsAreShort(limit: Option<nat>, s: State, path: seq<Action>, end: State)
    requires Inv(limit, s) && s.phase == Aborting
    requires limit.Some? ==> limit.value < USIZE
    requires Follows(limit, s, path, end) && end.phase == Aborting
    ensures |path| < Remaining(s)
    decreases |path|
  {
    if path != [] {
      var a := path[0];
      AbortingShrinks(limit, s, a);
      StepKeepsInv(limit, s, a);
      var s' := Step(limit, s, a).value;
      if s'.phase == Drained {
        DrainedIsFinal(limit, s', path[1..], end);
      } else {
        AbortedPathsAreShort(limit, s', path[1..], end);
      }
    }
  }

  lemma {:induction false} DrainedIsFinal(limit: Option<nat>, s: State, path: seq<Action>, end: State)
    requires Inv(limit, s) && s.phase == Drained
    requires limit.Some? ==> limit.value < USIZE
    requires Follows(limit, s, path, end)
    ensures end == s
    decreases |path|
  {
    if path != [] {
      DrainedIsStuck(limit, s, path[0]);
    }
  }

  lemma DrainedIsStuck(limit: Option<nat>, s: State, a: Action)
    requires Inv(limit, s) && s.phase == Drained
    ensures Step(limit, s, a).None?
  {
  }
}
