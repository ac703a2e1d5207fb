/** Bodies, their size limits and buffered reading (arvik-core/src/body.rs,
    arvik-core/src/body_limit.rs, arvik-middleware/src/body_limit.rs). */
module BodyLimit {
  import opened Wrappers
  import opened Utf8

  type Bytes = seq<Byte>

  datatype BoxError = BodyTooLarge | UnexpectedTrailer | Other(id: nat)

  /** What a poll of a body gives. */
  datatype Polled = Data(data: Bytes) | Trailers | Error(error: BoxError) | Pending | End

  /** What a stream has in store; its end is the end of the list. */
  type Item = p: Polled | !p.End? witness Pending

  function Total(chunks: seq<Bytes>): nat {
    if chunks == [] then 0 else |chunks[0]| + Total(chunks[1..])
  }

  function Concat(chunks: seq<Bytes>): Bytes {
    if chunks == [] then [] else chunks[0] + Concat(chunks[1..])
  }

  function DataItems(chunks: seq<Bytes>): seq<Item> {
    seq(|chunks|, i requires 0 <= i < |chunks| => Data(chunks[i]))
  }

  function SaturatingSub(a: nat, b: nat): nat {
    if b <= a then a - b else 0
  }

  // ---------------------------------------------------------------- leaves

  class ChunksBody {
    var chunks: seq<Bytes>
    var remaining: nat

    ghost predicate Valid()
      reads this
    {
      remaining == Total(chunks)
    }

    constructor (chunks: seq<Bytes>, remaining: nat)
      requires remaining == Total(chunks)
      ensures Valid() && this.chunks == chunks
    {
      this.chunks, this.remaining := chunks, remaining;
    }

    /** The subtraction saturates in the code; it never has to, because `remaining` is the number
        of unread bytes before and after. */
    method PollFrame() returns (r: Polled)
      requires Valid()
      modifies this
      ensures Valid()
      ensures old(chunks) == [] ==> r == End && chunks == [] && remaining == old(remaining)
      ensures old(chunks) != [] ==>
        r == Data(old(chunks)[0]) && chunks == old(chunks)[1..] && remaining == old(remaining) - |r.data|
    {
      if chunks == [] {
        return End;
      }
      var chunk := chunks[0];
      chunks := chunks[1..];
      remaining := SaturatingSub(remaining, |chunk|);
      return Data(chunk);
    }
  }

  /** A body over any stream; its length is not known. */
  class StreamBody {
    var items: seq<Item>

    constructor (items: seq<Item>)
      ensures this.items == items
    {
      this.items := items;
    }

    method PollNext() returns (r: Polled)
      modifies this
      ensures old(items) == [] ==> r == End && items == []
      ensures old(items) != [] ==> r == old(items)[0] && items == old(items)[1..]
    {
      if items == [] {
        return End;
      }
      r := items[0];
      items := items[1..];
    }
  }

  // ---------------------------------------------------------------- bodies

  datatype Body = Empty | Chunks(chunks: ChunksBody) | Stream(stream: StreamBody) | Limited(limited: LimitedBody)

  class LimitedBody {
    const inner: Body
    const limit: nat
    var read: nat
    /** How many limits are around the same data, this one included. */
    ghost const level: nat

    constructor (inner: Body, limit: nat)
      ensures this.inner == inner && this.limit == limit && read == 0 && level == Level(inner) + 1
    {
      this.inner, this.limit, read := inner, limit, 0;
      level := Level(inner) + 1;
    }
  }

  ghost function Level(b: Body): nat {
    if b.Limited? then b.limited.level else 0
  }

  /** Limits enclose one another without a cycle. */
  ghost predicate Nested(b: Body)
    decreases Level(b), 0
  {
    b.Limited? ==>
      Level(b) == Level(b.limited.inner) + 1
      && Nested(b.limited.inner)
      && b.limited !in Footprint(b.limited.inner)
  }

  ghost function Footprint(b: Body): set<object>
    requires Nested(b)
    decreases Level(b), 1
  {
    match b
    case Empty => {}
    case Chunks(c) => {c}
    case Stream(s) => {s}
    case Limited(l) => {l} + Footprint(l.inner)
  }

  /** A body holds no object yet to be made. */
  lemma {:induction false} FootprintAllocated(b: Body)
    requires Nested(b)
    ensures forall o :: o in Footprint(b) ==> allocated(o)
    decreases Level(b)
  {
    if b.Limited? {
      FootprintAllocated(b.limited.inner);
    }
  }

  ghost predicate Valid(b: Body)
    requires Nested(b)
    reads Footprint(b)
    decreases Level(b)
  {
    match b
    case Empty => true
    case Chunks(c) => c.Valid()
    case Stream(_) => true
    case Limited(l) => Valid(l.inner)
  }

  /** A limit and how much of it is used. */
  datatype Layer = Layer(limit: nat, read: nat)

  /** A body seen from outside: what is left to come, and the limits around it, outermost first. */
  datatype State = State(items: seq<Item>, layers: seq<Layer>)

  ghost function View(b: Body): State
    requires Nested(b)
    reads Footprint(b)
    decreases Level(b)
  {
    match b
    case Empty => State([], [])
    case Chunks(c) => State(DataItems(c.chunks), [])
    case Stream(s) => State(s.items, [])
    case Limited(l) => State(View(l.inner).items, [Layer(l.limit, l.read)] + View(l.inner).layers)
  }

  /** One limit's view of what comes from inside. */
  function Count(layer: Layer, r: Polled): (Polled, Layer) {
    if !r.Data? then (r, layer)
    else
      var read := layer.read + |r.data|;
      (if read > layer.limit then Error(BodyTooLarge) else r, Layer(layer.limit, read))
  }

  function Polls(s: State): (Polled, State)
    decreases |s.layers|
  {
    if s.layers == [] then
      if s.items == [] then (End, s) else (s.items[0], State(s.items[1..], []))
    else
      var (r, below) := Polls(State(s.items, s.layers[1..]));
      var (out, top) := Count(s.layers[0], r);
      (out, State(below.items, [top] + below.layers))
  }

  /** `poll_frame` of a body, through all its limits. */
  method PollFrame(b: Body) returns (r: Polled)
    requires Nested(b) && Valid(b)
    modifies Footprint(b)
    ensures Valid(b)
    ensures (r, View(b)) == Polls(old(View(b)))
    decreases Level(b)
  {
    match b {
      case Empty => r := End;
      case Chunks(c) =>
        ghost var before := c.chunks;
        r := c.PollFrame();
        if before != [] {
          assert DataItems(c.chunks) == DataItems(before)[1..];
        }
      case Stream(s) => r := s.PollNext();
      case Limited(l) =>
        ghost var before := View(b);
        assert State(before.items, before.layers[1..]) == View(l.inner);
        r := PollFrame(l.inner);
        if r.Data? {
          l.read := l.read + |r.data|;
          if l.read > l.limit {
            r := Error(BodyTooLarge);
          }
        }
    }
  }

  /** The upper bound of `size_hint`; limits pass it on. */
  function UpperHint(b: Body): Option<nat>
    requires Nested(b)
    reads Footprint(b)
    decreases Level(b)
  {
    match b
    case Empty => Some(0)
    case Chunks(c) => Some(c.remaining)
    case Stream(_) => None
    case Limited(l) => UpperHint(l.inner)
  }

  /** Bytes of data still to come. */
  function Left(items: seq<Item>): nat
    decreases |items|
  {
    if items == [] then 0 else (if items[0].Data? then |items[0].data| else 0) + Left(items[1..])
  }

  lemma {:induction false} LeftOfChunks(chunks: seq<Bytes>)
    ensures Left(DataItems(chunks)) == Total(chunks)
  {
    if chunks != [] {
      LeftOfChunks(chunks[1..]);
      assert DataItems(chunks)[1..] == DataItems(chunks[1..]);
    }
  }

  /** A length that is declared is exact, before the first poll and after every other: the bytes
      that have not been read yet. Polls keep `Valid`. */
  lemma {:induction false} HintIsExact(b: Body)
    requires Nested(b) && Valid(b)
    ensures UpperHint(b).Some? ==> UpperHint(b).value == Left(View(b).items)
    decreases Level(b)
  {
    match b
    case Chunks(c) => LeftOfChunks(c.chunks);
    case Limited(l) => HintIsExact(l.inner);
    case _ =>
  }

  // ---------------------------------------------------------------- reading under a limit

  datatype BodyLimitError = TooLarge | Read(error: BoxError)

  /** `is_payload_too_large` */
  predicate IsPayloadTooLarge(e: BodyLimitError) { e.TooLarge? || e.error == BodyTooLarge }

  /** How a read ends, without regard to which of several limits spoke up. */
  datatype Outcome = Complete(bytes: Bytes) | OverLimit | Broken(error: BoxError)

  function OutcomeOf(r: Result<Bytes, BodyLimitError>): Outcome {
    match r
    case Success(bytes) => Complete(bytes)
    case Failure(e) => if IsPayloadTooLarge(e) then OverLimit else Broken(e.error)
  }

  /** The tightest of `budget` and what the limits still allow. */
  function Budget(layers: seq<Layer>, budget: int): int {
    if layers == [] then budget
    else
      var below := Budget(layers[1..], budget);
      var own := layers[0].limit - layers[0].read;
      if own < below then own else below
  }

  /** Reading `items` with a single budget. */
  function Reads(items: seq<Item>, budget: int): Outcome
    decreases |items|
  {
    if items == [] then Complete([])
    else
      match items[0]
      case Data(d) =>
        if |d| > budget then OverLimit
        else
          var rest := Reads(items[1..], budget - |d|);
          if rest.Complete? then Complete(d + rest.bytes) else rest
      case Trailers => Broken(UnexpectedTrailer)
      case Error(e) => if e == BodyTooLarge then OverLimit else Broken(e)
      case Pending => Reads(items[1..], budget)
  }

  function DataOf(items: seq<Item>): Bytes
    decreases |items|
  {
    if items == [] then [] else (if items[0].Data? then items[0].data else []) + DataOf(items[1..])
  }

  /** The first k items hold nothing but data within the budget and waiting. */
  ghost predicate PassesUpTo(items: seq<Item>, budget: nat, k: nat) {
    && k <= |items| && Left(items[..k]) <= budget
    && forall i :: 0 <= i < k ==> items[i].Data? || items[i].Pending?
  }

  /** How a read ends, by the first item that ends it: at the end of the body with all its data, at data
      beyond the budget or an error of a limit as too large, at any other error with that error, and at
      trailers as broken. */
  lemma {:induction false} ReadsByPosition(items: seq<Item>, budget: nat, k: nat)
    requires PassesUpTo(items, budget, k)
    ensures k == |items| ==> Reads(items, budget) == Complete(DataOf(items))
    ensures k < |items| ==>
      match items[k]
      case Data(d) => Left(items[..k]) + |d| > budget ==> Reads(items, budget) == OverLimit
      case Error(e) => Reads(items, budget) == if e == BodyTooLarge then OverLimit else Broken(e)
      case Trailers => Reads(items, budget) == Broken(UnexpectedTrailer)
      case Pending => true
    decreases k
  {
    if k > 0 {
      var rest := items[1..];
      assert items[..k][0] == items[0] && items[..k][1..] == rest[..k - 1];
      ReadsByPosition(rest, budget - (if items[0].Data? then |items[0].data| else 0), k - 1);
    }
  }

  function Advance(layers: seq<Layer>, n: nat): seq<Layer> {
    seq(|layers|, i requires 0 <= i < |layers| => Layer(layers[i].limit, layers[i].read + n))
  }

  /** Every limit has room for `n` more bytes. */
  predicate Allow(layers: seq<Layer>, n: nat) {
    forall i :: 0 <= i < |layers| ==> layers[i].read + n <= layers[i].limit
  }

  lemma AllowSplits(layers: seq<Layer>, n: nat)
    requires layers != []
    ensures Allow(layers, n) <==> layers[0].read + n <= layers[0].limit && Allow(layers[1..], n)
  {
    var rest := layers[1..];
    if layers[0].read + n <= layers[0].limit && Allow(rest, n) {
      forall i | 0 <= i < |layers|
        ensures layers[i].read + n <= layers[i].limit
      {
        if i > 0 { assert layers[i] == rest[i - 1]; }
      }
    }
    if Allow(layers, n) {
      forall i | 0 <= i < |rest|
        ensures rest[i].read + n <= rest[i].limit
      {
        assert rest[i] == layers[i + 1];
      }
    }
  }

  lemma {:induction false} BudgetAfter(layers: seq<Layer>, budget: int, n: nat)
    ensures Budget(Advance(layers, n), budget - n) == Budget(layers, budget) - n
  {
    if layers != [] {
      BudgetAfter(layers[1..], budget, n);
      assert Advance(layers, n)[1..] == Advance(layers[1..], n);
    }
  }

  /** A stack of limits polls like its innermost part: what is not data passes, and data passes,
      counted by all, when every limit allows it. */
  lemma {:induction false} StackPolls(s: State)
    ensures s.items == [] ==> Polls(s) == (End, s)
    ensures s.items != [] && !s.items[0].Data? ==> Polls(s) == (s.items[0], State(s.items[1..], s.layers))
    ensures s.items != [] && s.items[0].Data? ==>
      var d := s.items[0].data;
      if Allow(s.layers, |d|) then Polls(s) == (Data(d), State(s.items[1..], Advance(s.layers, |d|)))
      else Polls(s).0 == Error(BodyTooLarge)
    decreases |s.layers|
  {
    if s.layers == [] {
      if s.items != [] && s.items[0].Data? {
        assert Advance(s.layers, |s.items[0].data|) == [];
      }
    } else {
      var below := State(s.items, s.layers[1..]);
      StackPolls(below);
      assert s.layers == [s.layers[0]] + below.layers;
      if s.items != [] && s.items[0].Data? {
        var n := |s.items[0].data|;
        AllowSplits(s.layers, n);
        assert Advance(s.layers, n) == [Layer(s.layers[0].limit, s.layers[0].read + n)] + Advance(below.layers, n);
        hide Allow, Advance;
      }
    }
  }

  lemma {:induction false} BudgetAllows(layers: seq<Layer>, budget: int, n: nat)
    ensures n <= Budget(layers, budget) <==> n <= budget && Allow(layers, n)
  {
    if layers != [] {
      BudgetAllows(layers[1..], budget, n);
      AllowSplits(layers, n);
    }
  }

  /** The outcome of a read that has `prefix` already. */
  function After(prefix: Bytes, rest: Outcome): Outcome {
    if rest.Complete? then Complete(prefix + rest.bytes) else rest
  }

  lemma AfterTwice(a: Bytes, b: Bytes, rest: Outcome)
    ensures After(a, After(b, rest)) == After(a + b, rest)
    ensures After([], rest) == rest
  {
    if rest.Complete? {
      assert (a + b) + rest.bytes == a + (b + rest.bytes);
    }
  }

  lemma {:induction false} ConcatSnoc(frames: seq<Bytes>, data: Bytes)
    ensures Concat(frames + [data]) == Concat(frames) + data
  {
    if frames == [] {
      assert [data][1..] == [] && frames + [data] == [data];
    } else {
      ConcatSnoc(frames[1..], data);
      assert (frames + [data])[1..] == frames[1..] + [data];
    }
  }

  /** The outcome of reading through a stack of limits with a budget of one's own. */
  function ReadsThrough(s: State, budget: int): Outcome { Reads(s.items, Budget(s.layers, budget)) }

  /** What one poll through the stack means for a read that has `prefix` already. */
  lemma PollReads(prefix: Bytes, s: State, budget: nat)
    ensures After(prefix, ReadsThrough(s, budget)) == (
      var (r, next) := Polls(s);
      match r
      case End => Complete(prefix)
      case Pending => After(prefix, ReadsThrough(next, budget))
      case Error(e) => if e == BodyTooLarge then OverLimit else Broken(e)
      case Trailers => Broken(UnexpectedTrailer)
      case Data(d) =>
        if |d| > budget then OverLimit else After(prefix + d, ReadsThrough(next, budget - |d|)))
    ensures Polls(s).0.Pending? || Polls(s).0.Data? ==> |Polls(s).1.items| < |s.items|
  {
    hide Polls, Budget, Allow, Advance;
    StackPolls(s);
    if s.items != [] && s.items[0].Data? {
      var d := s.items[0].data;
      BudgetAllows(s.layers, budget, |d|);
      BudgetAfter(s.layers, budget, |d|);
      AfterTwice(prefix, d, Reads(s.items[1..], Budget(s.layers, budget) - |d|));
    }
    assert prefix + [] == prefix;
  }

  lemma OutcomeLaws()
    ensures Concat([]) == []
    ensures forall bytes :: OutcomeOf(Success(bytes)) == Complete(bytes)
    ensures OutcomeOf(Failure(TooLarge)) == OverLimit
    ensures forall e :: OutcomeOf(Failure(Read(e))) == if e == BodyTooLarge then OverLimit else Broken(e)
  {
  }

  /** The reading loop of `to_bytes_limited`. */
  method ReadFrames(b: Body, limit: nat) returns (r: Result<Bytes, BodyLimitError>)
    requires Nested(b) && Valid(b)
    modifies Footprint(b)
    ensures OutcomeOf(r) == old(ReadsThrough(View(b), limit))
  {
    hide *;
    var frames: seq<Bytes> := [];
    var total := 0;
    ghost var whole := ReadsThrough(View(b), limit);
    AfterTwice([], [], whole);
    OutcomeLaws();
    while true
      invariant Valid(b)
      invariant total <= limit
      invariant whole == After(Concat(frames), ReadsThrough(View(b), limit - total))
      decreases |View(b).items|
    {
      PollReads(Concat(frames), View(b), limit - total);
      var frame := PollFrame(b);
      match frame {
        case End => break;
        case Pending =>
        case Error(e) => return Failure(Read(e));
        case Trailers => return Failure(Read(UnexpectedTrailer));
        case Data(data) =>
          total := total + |data|;
          if total > limit {
            return Failure(TooLarge);
          }
          ConcatSnoc(frames, data);
          frames := frames + [data];
      }
    }
    r := Success(Concat(frames));
  }

  /** `to_bytes_limited`: whatever limits the body already carries, and however far each is used up,
      the read ends as it would with one budget, the tightest of them all. A declared length over
      the limit is refused before the first poll. */
  method ToBytesLimited(b: Body, limit: nat) returns (r: Result<Bytes, BodyLimitError>)
    requires Nested(b) && Valid(b)
    modifies Footprint(b)
    ensures var hint := old(UpperHint(b));
      OutcomeOf(r) == if hint.Some? && hint.value > limit then OverLimit else old(ReadsThrough(View(b), limit))
  {
    hide ReadsThrough, View, Nested, Valid;
    var upper := UpperHint(b);
    if upper.Some? && upper.value > limit {
      return Failure(TooLarge);
    }
    r := ReadFrames(b, limit);
  }

  // ---------------------------------------------------------------- limits compose

  lemma {:induction false} DataReads(chunks: seq<Bytes>, budget: int)
    requires budget >= 0
    ensures Reads(DataItems(chunks), budget)
         == if Total(chunks) <= budget then Complete(Concat(chunks)) else OverLimit
    decreases |chunks|
  {
    if chunks != [] {
      var items := DataItems(chunks);
      assert items[1..] == DataItems(chunks[1..]) && items[0] == Data(chunks[0]);
      if |chunks[0]| <= budget {
        DataReads(chunks[1..], budget - |chunks[0]|);
      }
    }
  }

  function NonEmpty(chunks: seq<Bytes>): (kept: seq<Bytes>)
    ensures forall c :: c in kept ==> c != [] && c in chunks
  {
    if chunks == [] then []
    else NonEmpty(chunks[..|chunks| - 1]) + (if chunks[|chunks| - 1] == [] then [] else [chunks[|chunks| - 1]])
  }

  lemma {:induction false} TotalSnoc(chunks: seq<Bytes>, last: Bytes)
    ensures Total(chunks + [last]) == Total(chunks) + |last|
  {
    if chunks == [] {
      assert [last][1..] == [] && chunks + [last] == [last];
    } else {
      TotalSnoc(chunks[1..], last);
      assert (chunks + [last])[1..] == chunks[1..] + [last];
    }
  }

  lemma NonEmptySnoc(chunks: seq<Bytes>, last: Bytes)
    ensures NonEmpty([]) == []
    ensures NonEmpty(chunks + [last]) == if last == [] then NonEmpty(chunks) else NonEmpty(chunks) + [last]
  {
    assert (chunks + [last])[..|chunks|] == chunks;
  }

  lemma {:induction false} NonEmptyKeepsBytes(chunks: seq<Bytes>)
    ensures Concat(NonEmpty(chunks)) == Concat(chunks)
    ensures Total(NonEmpty(chunks)) == Total(chunks)
  {
    hide *;
    if chunks == [] {
      NonEmptySnoc([], []);
    } else {
      var before, last := chunks[..|chunks| - 1], chunks[|chunks| - 1];
      NonEmptyKeepsBytes(before);
      assert chunks == before + [last];
      NonEmptySnoc(before, last);
      ConcatSnoc(before, last);
      TotalSnoc(before, last);
      ConcatSnoc(NonEmpty(before), last);
      TotalSnoc(NonEmpty(before), last);
      if last == [] {
        assert Concat(before) + [] == Concat(before);
      }
    }
  }

  /** `Body::from_chunks`: empty chunks are dropped, and with nothing left the body is empty. */
  method FromChunks(chunks: seq<Bytes>) returns (b: Body)
    ensures Nested(b) && Valid(b) && fresh(Footprint(b))
    ensures View(b) == State(DataItems(NonEmpty(chunks)), []) && UpperHint(b) == Some(Total(chunks))
    ensures forall i :: 0 <= i < |View(b).items| ==> View(b).items[i].Data? && View(b).items[i].data != []
  {
    hide NonEmpty, Concat;
    var kept := NonEmpty(chunks);
    NonEmptyKeepsBytes(chunks);
    if kept == [] {
      return Empty;
    }
    assert forall i :: 0 <= i < |kept| ==> kept[i] in kept;
    var c := new ChunksBody(kept, Total(kept));
    return Chunks(c);
  }

  function Min(limits: seq<nat>, m: nat): nat {
    if limits == [] then m
    else
      var below := Min(limits[1..], m);
      if limits[0] < below then limits[0] else below
  }

  function FreshLayers(limits: seq<nat>): seq<Layer> {
    seq(|limits|, i requires 0 <= i < |limits| => Layer(limits[i], 0))
  }

  lemma {:induction false} FreshBudget(limits: seq<nat>, m: nat)
    ensures Budget(FreshLayers(limits), m) == Min(limits, m) <= m
  {
    if limits != [] {
      FreshBudget(limits[1..], m);
      assert FreshLayers(limits)[1..] == FreshLayers(limits[1..]);
    }
  }

  /** What a body limit layer puts around a request's body. */
  method Limit(inner: Body, limit: nat) returns (b: Body)
    requires Nested(inner) && Valid(inner)
    ensures Nested(b) && Valid(b) && b.Limited? && fresh(b.limited) && Footprint(b) == {b.limited} + Footprint(inner)
    ensures View(b) == State(old(View(inner)).items, [Layer(limit, 0)] + old(View(inner)).layers)
    ensures UpperHint(b) == old(UpperHint(inner))
  {
    FootprintAllocated(inner);
    var l := new LimitedBody(inner, limit);
    b := Limited(l);
  }

  /** A body behind the limits of several layers, the first of `limits` outermost. */
  method Wrap(inner: Body, limits: seq<nat>) returns (b: Body)
    requires Nested(inner) && Valid(inner)
    ensures Nested(b) && Valid(b) && fresh(Footprint(b) - Footprint(inner))
    ensures View(b) == State(old(View(inner)).items, FreshLayers(limits) + old(View(inner)).layers)
    ensures UpperHint(b) == old(UpperHint(inner))
  {
    if limits == [] {
      assert FreshLayers(limits) + View(inner).layers == View(inner).layers;
      return inner;
    }
    ghost var below := View(inner).layers;
    var wrapped := Wrap(inner, limits[1..]);
    assert FreshLayers(limits) + below == [Layer(limits[0], 0)] + (FreshLayers(limits[1..]) + below);
    hide *;
    b := Limit(wrapped, limits[0]);
  }

  /** Size limits compose: chunks read through any stack of limits come out whole if they fit the
      tightest limit, and are otherwise refused as too large, whichever limit refuses. */
  method ReadThrough(chunks: seq<Bytes>, limits: seq<nat>, limit: nat) returns (r: Result<Bytes, BodyLimitError>)
    ensures OutcomeOf(r) == if Total(chunks) <= Min(limits, limit) then Complete(Concat(chunks)) else OverLimit
  {
    hide Reads, Budget, View, Total, Concat;
    var inner := FromChunks(chunks);
    var b := Wrap(inner, limits);
    NonEmptyKeepsBytes(chunks);
    DataReads(NonEmpty(chunks), Min(limits, limit));
    FreshBudget(limits, limit);
    assert FreshLayers(limits) + [] == FreshLayers(limits);
    r := ToBytesLimited(b, limit);
  }

  /** The same for a stream of unknown length. */
  method ReadStreamThrough(chunks: seq<Bytes>, limits: seq<nat>, limit: nat) returns (r: Result<Bytes, BodyLimitError>)
    ensures OutcomeOf(r) == if Total(chunks) <= Min(limits, limit) then Complete(Concat(chunks)) else OverLimit
  {
    var stream := new StreamBody(DataItems(chunks));
    var b := Wrap(Stream(stream), limits);
    DataReads(chunks, Min(limits, limit));
    FreshBudget(limits, limit);
    assert FreshLayers(limits) + [] == FreshLayers(limits);
    hide Reads, Budget, View, Total, Concat;
    r := ToBytesLimited(b, limit);
  }
}
