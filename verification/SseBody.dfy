/** The streaming body and its keep-alive timer (arvik-sse/src/sse.rs, arvik-sse/src/keep_alive.rs).

    The user's stream and the clock are inputs: each poll is given what the stream answers and what
    time it is. Instants are exact reals in seconds. */
module SseBody {
  import opened Wrappers
  import opened Sequences
  import opened EventStream
  import opened SseEvent
  import opened SseRoundTrip

  /** Interval and pre-serialised comment frame. */
  datatype KeepAlive = KeepAlive(interval: real, commentBytes: string)

  const DEFAULT_KEEP_ALIVE := KeepAlive(15.0, ": \n\n")

  function CommentOnly(text: string): EventValue { DEFAULT.(comment := Some(NormalizeNewlines(text))) }

  /** `KeepAlive::text` */
  function Text(ka: KeepAlive, text: string): KeepAlive { ka.(commentBytes := Wire(CommentOnly(text))) }

  /** Every keep-alive frame is the print of a comment-only event. */
  ghost predicate FromBuilder(ka: KeepAlive) { exists text :: ka.commentBytes == Wire(CommentOnly(text)) }

  /** The default frame is the empty text's. */
  lemma DefaultIsEmptyText()
    ensures DEFAULT_KEEP_ALIVE.commentBytes == Wire(CommentOnly(""))
    ensures FromBuilder(DEFAULT_KEEP_ALIVE)
  {
    var e := CommentOnly("");
    assert NormalizeNewlines("") == "";
    assert ": " + "" == ": ";
    assert Prefixed(": ", [""]) == [": "];
    assert FieldLines(e) + [""] == [": ", ""];
    assert Terminated([": ", ""]) == ": " + "\n" + Terminated([""]);
    assert Terminated([""]) == "\n" == "" + "\n" + "";
  }

  /** The frame of a one-line text is that text as a comment, and a blank line. */
  lemma KeepAliveText(ka: KeepAlive, text: string)
    requires NoBreaks(text)
    ensures Text(ka, text) == KeepAlive(ka.interval, ": " + text + "\n\n")
  {
    var e := CommentOnly(text);
    assert '\r' !in text && '\n' !in text;
    NothingToNormalize(text);
    SplitWhole(text, '\n');
    assert Prefixed(": ", [text]) == [": " + text];
    assert FieldLines(e) + [""] == [": " + text, ""];
    assert [": " + text, ""][1..] == [""];
    assert Terminated([""]) == "\n" == "" + "\n" + "";
    assert Wire(e) == ": " + text + "\n" + "\n" == ": " + text + "\n\n";
  }

  datatype StreamPoll = Yields(e: EventValue) | Fails | Exhausted | Pending

  datatype BodyPoll = Frame(bytes: string) | Error | End | NotReady

  /** One poll: the answer and the deadline of the sleep afterwards. */
  function PollStep(ka: Option<KeepAlive>, deadline: real, poll: StreamPoll, now: real): (BodyPoll, real) {
    match poll
    case Yields(e) => (Frame(Wire(e)), if ka.Some? then now + ka.value.interval else deadline)
    case Fails => (Error, deadline)
    case Exhausted => (End, deadline)
    case Pending =>
      if ka.Some? && now >= deadline then (Frame(ka.value.commentBytes), now + ka.value.interval)
      else (NotReady, deadline)
  }

  class SseBody {
    const keepAlive: Option<KeepAlive>
    var deadline: real

    constructor (keepAlive: Option<KeepAlive>, now: real)
      ensures this.keepAlive == keepAlive
      ensures deadline == if keepAlive.Some? then now + keepAlive.value.interval else now
    {
      this.keepAlive := keepAlive;
      deadline := if keepAlive.Some? then now + keepAlive.value.interval else now;
    }

    method PollFrame(poll: StreamPoll, now: real) returns (r: BodyPoll)
      modifies this
      ensures (r, deadline) == PollStep(keepAlive, old(deadline), poll, now)
      ensures r == Error <==> poll == Fails
      ensures r == End <==> poll == Exhausted
      ensures poll.Yields? ==> r == Frame(Wire(poll.e))
      ensures poll == Pending && keepAlive.None? ==> r == NotReady
      ensures poll == Pending && keepAlive.Some? ==>
        r == if now < old(deadline) then NotReady else Frame(keepAlive.value.commentBytes)
      ensures r.Frame? && keepAlive.Some? ==> deadline == now + keepAlive.value.interval
      ensures !r.Frame? || keepAlive.None? ==> deadline == old(deadline)
    {
      match poll {
        case Yields(e) =>
          if keepAlive.Some? {
            deadline := now + keepAlive.value.interval;
          }
          return Frame(Wire(e));
        case Fails =>
          return Error;
        case Exhausted =>
          return End;
        case Pending =>
          if keepAlive.Some? {
            if now >= deadline {
              deadline := now + keepAlive.value.interval;
              return Frame(keepAlive.value.commentBytes);
            }
          }
      }
      return NotReady;
    }
  }

  // ---------------------------------------------------------------- runs

  type Poll = (StreamPoll, real)

  function Answers(ka: Option<KeepAlive>, deadline: real, polls: seq<Poll>): (r: seq<BodyPoll>)
    ensures |r| == |polls|
    decreases |polls|
  {
    if polls == [] then []
    else
      var (a, deadline') := PollStep(ka, deadline, polls[0].0, polls[0].1);
      [a] + Answers(ka, deadline', polls[1..])
  }

  /** Answer by answer: an error of the stream is an error of the body, its end is the end, an event is its
      print, and where it has nothing the body has at most a comment frame. */
  lemma {:induction false} AnswersFollow(ka: Option<KeepAlive>, deadline: real, polls: seq<Poll>, i: nat)
    requires i < |polls|
    ensures var r := Answers(ka, deadline, polls)[i];
      && (r == Error <==> polls[i].0 == Fails)
      && (r == End <==> polls[i].0 == Exhausted)
      && (polls[i].0.Yields? ==> r == Frame(Wire(polls[i].0.e)))
      && (polls[i].0 == Pending ==> r == NotReady || (ka.Some? && r == Frame(ka.value.commentBytes)))
    decreases i
  {
    hide Wire;
    if i > 0 {
      var (a, next) := PollStep(ka, deadline, polls[0].0, polls[0].1);
      AnswersFollow(ka, next, polls[1..], i - 1);
      assert Answers(ka, deadline, polls)[1..] == Answers(ka, next, polls[1..]);
      assert Answers(ka, deadline, polls)[i] == Answers(ka, next, polls[1..])[i - 1];
    }
  }

  /** The bytes on the wire: all frames, one after the other. */
  function Output(answers: seq<BodyPoll>): string {
    if answers == [] then ""
    else (if answers[0].Frame? then answers[0].bytes else "") + Output(answers[1..])
  }

  function Yielded(polls: seq<Poll>): seq<EventValue>
    decreases |polls|
  {
    if polls == [] then []
    else (if polls[0].0.Yields? then [polls[0].0.e] else []) + Yielded(polls[1..])
  }

  /** The messages a list of events amounts to: one per event with data, in order, with the last
      ID seen so far. */
  function Messages(es: seq<EventValue>, lastId: string): seq<Message> {
    if es == [] then []
    else
      var id := if es[0].id.Some? then es[0].id.value else lastId;
      (if es[0].data.Some? then [Message(EventTypeOf(es[0]), es[0].data.value, id)] else [])
      + Messages(es[1..], id)
  }

  function DeliverAll(p: Parser, es: seq<EventValue>): Parser
    decreases |es|
  {
    if es == [] then p else DeliverAll(Deliver(p, es[0]), es[1..])
  }

  lemma {:induction false} DeliverAllDispatches(p: Parser, es: seq<EventValue>)
    ensures DeliverAll(p, es).dispatched == p.dispatched + Messages(es, p.idBuffer)
    decreases |es|
  {
    if es == [] {
      assert p.dispatched + [] == p.dispatched;
    } else {
      DeliverAllDispatches(Deliver(p, es[0]), es[1..]);
    }
  }

  /** A comment frame between events leaves a client as it was, but for the last event ID string,
      which a blank line copies from its buffer. */
  lemma KeepAliveDelivers(ka: KeepAlive, rest: string, p: Parser)
    requires FromBuilder(ka) && Clean(p) && p.lastEventId == p.idBuffer
    ensures Interpret(ka.commentBytes + rest, p) == Interpret(rest, p)
  {
    var text :| ka.commentBytes == Wire(CommentOnly(text));
    var e := CommentOnly(text);
    WireRoundTrip(e, rest, p);
    assert p.dispatched + [] == p.dispatched;
    assert Deliver(p, e) == p;
  }

  /** Whatever the stream yields and whenever the timer fires, a client that reads the frames does
      what the yielded events say, in order, and nothing else. */
  lemma {:induction false} RunDelivers(ka: Option<KeepAlive>, deadline: real, polls: seq<Poll>, p: Parser)
    requires ka.Some? ==> FromBuilder(ka.value)
    requires forall e :: e in Yielded(polls) ==> WellFormed(e)
    requires Clean(p) && p.lastEventId == p.idBuffer
    ensures Interpret(Output(Answers(ka, deadline, polls)), p) == DeliverAll(p, Yielded(polls))
    decreases |polls|
  {
    hide Interpret, WellFormed, Deliver, FromBuilder, Wire, Clean;
    if polls != [] {
      var (a, deadline') := PollStep(ka, deadline, polls[0].0, polls[0].1);
      var tail := Answers(ka, deadline', polls[1..]);
      assert Answers(ka, deadline, polls)[1..] == tail;
      var rest := Output(tail);
      if polls[0].0.Yields? {
        var e := polls[0].0.e;
        assert Yielded(polls) == [e] + Yielded(polls[1..]);
        assert e in Yielded(polls);
        WireRoundTrip(e, rest, p);
        DeliverKeepsIds(p, e);
        RunDelivers(ka, deadline', polls[1..], Deliver(p, e));
      } else {
        assert Yielded(polls) == Yielded(polls[1..]);
        RunDelivers(ka, deadline', polls[1..], p);
        if a.Frame? {
          KeepAliveDelivers(ka.value, rest, p);
        } else {
          assert "" + rest == rest;
        }
      }
    } else {
      NothingToRead(p);
    }
  }

  lemma NothingToRead(p: Parser)
    ensures Interpret("", p) == p
  {
  }

  lemma DeliverKeepsIds(p: Parser, e: EventValue)
    ensures Deliver(p, e).lastEventId == Deliver(p, e).idBuffer
  {
  }

  lemma {:induction false} OutputHasNoBom(ka: Option<KeepAlive>, deadline: real, polls: seq<Poll>)
    requires ka.Some? ==> FromBuilder(ka.value)
    ensures StripBom(Output(Answers(ka, deadline, polls))) == Output(Answers(ka, deadline, polls))
    decreases |polls|
  {
    hide Wire;
    if polls != [] {
      var (a, deadline') := PollStep(ka, deadline, polls[0].0, polls[0].1);
      var tail := Answers(ka, deadline', polls[1..]);
      assert Answers(ka, deadline, polls)[1..] == tail;
      var rest := Output(tail);
      OutputHasNoBom(ka, deadline', polls[1..]);
      match polls[0].0
      case Yields(e) => NoBom(e, rest);
      case Pending =>
        if a.Frame? {
          var text :| ka.value.commentBytes == Wire(CommentOnly(text));
          NoBom(CommentOnly(text), rest);
        } else {
          assert "" + rest == rest;
        }
      case Fails => assert "" + rest == rest;
      case Exhausted => assert "" + rest == rest;
    }
  }

  /** Keep-alive is transparent. For every run of the body a client that reads the wire from the
      start dispatches exactly the data-carrying events the stream yielded, in order, each with its
      type, data and last event ID; without keep-alive it would see the same. */
  lemma StreamRoundTrip(ka: Option<KeepAlive>, start: real, polls: seq<Poll>)
    requires ka.Some? ==> FromBuilder(ka.value)
    requires forall e :: e in Yielded(polls) ==> WellFormed(e)
    ensures var deadline := if ka.Some? then start + ka.value.interval else start;
            && Read(Output(Answers(ka, deadline, polls))).dispatched == Messages(Yielded(polls), "")
            && Read(Output(Answers(ka, deadline, polls))) == Read(Output(Answers(None, start, polls)))
  {
    hide *;
    var deadline := if ka.Some? then start + ka.value.interval else start;
    assert Clean(FRESH) && FRESH.lastEventId == FRESH.idBuffer by { FreshIsClean(); }
    OutputHasNoBom(ka, deadline, polls);
    OutputHasNoBom(None, start, polls);
    RunDelivers(ka, deadline, polls, FRESH);
    RunDelivers(None, start, polls, FRESH);
    DeliverAllDispatches(FRESH, Yielded(polls));
    ReadIsInterpret(Output(Answers(ka, deadline, polls)));
    ReadIsInterpret(Output(Answers(None, start, polls)));
    FreshIsClean();
  }

  lemma FreshIsClean()
    ensures Clean(FRESH) && FRESH.lastEventId == FRESH.idBuffer == ""
    ensures forall ms: seq<Message> :: FRESH.dispatched + ms == ms
  {
  }

  lemma ReadIsInterpret(s: string)
    requires StripBom(s) == s
    ensures Read(s) == Interpret(s, FRESH)
  {
  }

  lemma {:induction false} MessagesCarryData(es: seq<EventValue>, lastId: string, e: EventValue)
    requires e in es && e.data.Some?
    ensures exists i :: 0 <= i < |Messages(es, lastId)| && Messages(es, lastId)[i].data == e.data.value
  {
    var id := if es[0].id.Some? then es[0].id.value else lastId;
    var first := if es[0].data.Some? then [Message(EventTypeOf(es[0]), es[0].data.value, id)] else [];
    var all := Messages(es, lastId);
    assert all == first + Messages(es[1..], id);
    if es[0] == e {
      assert all[0].data == e.data.value;
    } else {
      MessagesCarryData(es[1..], id, e);
      var i :| 0 <= i < |Messages(es[1..], id)| && Messages(es[1..], id)[i].data == e.data.value;
      assert all[|first| + i].data == e.data.value;
    }
  }

  /** For events from any of the builders: the messages dispatched are those of the data-carrying
      events if and only if no event's data holds a CR, which only `json_data` could have let in. */
  lemma StreamRoundTripIff(ka: Option<KeepAlive>, start: real, polls: seq<Poll>)
    requires ka.Some? ==> FromBuilder(ka.value)
    requires forall e :: e in Yielded(polls) ==> Built(e)
    ensures var deadline := if ka.Some? then start + ka.value.interval else start;
      Read(Output(Answers(ka, deadline, polls))).dispatched == Messages(Yielded(polls), "")
      <==> forall e :: e in Yielded(polls) ==> DataCrFree(e)
  {
    hide Interpret, Output, Answers, Yielded, StripBom, Messages;
    var deadline := if ka.Some? then start + ka.value.interval else start;
    if forall e :: e in Yielded(polls) ==> DataCrFree(e) {
      StreamRoundTrip(ka, start, polls);
    } else {
      var e :| e in Yielded(polls) && !DataCrFree(e);
      ReadingDropsCr(StripBom(Output(Answers(ka, deadline, polls))), FRESH);
      MessagesCarryData(Yielded(polls), "", e);
    }
  }

  /** A body polled to the end of `polls` from the moment it is made: the bytes it puts out. */
  method PutOut(ka: Option<KeepAlive>, start: real, polls: seq<Poll>) returns (wire: string, answers: seq<BodyPoll>)
    ensures answers == Answers(ka, if ka.Some? then start + ka.value.interval else start, polls)
    ensures wire == Output(answers)
    ensures |answers| == |polls|
    ensures forall i :: 0 <= i < |polls| ==>
      && (answers[i] == Error <==> polls[i].0 == Fails)
      && (answers[i] == End <==> polls[i].0 == Exhausted)
      && (polls[i].0.Yields? ==> answers[i] == Frame(Wire(polls[i].0.e)))
  {
    hide *;
    wire, answers := "", [];
    var body := new SseBody(ka, start);
    ghost var whole := Output(Answers(ka, body.deadline, polls));
    ghost var all := Answers(ka, body.deadline, polls);
    OutputFrom(ka, body.deadline, polls, 0);
    AnswersFrom(ka, body.deadline, polls, 0);
    assert "" + whole == whole && [] + all == all;
    forall i | 0 <= i < |polls|
      ensures && (all[i] == Error <==> polls[i].0 == Fails)
              && (all[i] == End <==> polls[i].0 == Exhausted)
              && (polls[i].0.Yields? ==> all[i] == Frame(Wire(polls[i].0.e)))
    {
      AnswersFollow(ka, body.deadline, polls, i);
    }
    for i := 0 to |polls|
      invariant whole == wire + Output(Answers(ka, body.deadline, polls[i..]))
      invariant all == answers + Answers(ka, body.deadline, polls[i..])
    {
      OutputFrom(ka, body.deadline, polls, i);
      AnswersFrom(ka, body.deadline, polls, i);
      var answer := body.PollFrame(polls[i].0, polls[i].1);
      Associative(answers, [answer], Answers(ka, body.deadline, polls[i + 1..]));
      answers := answers + [answer];
      ghost var rest := Output(Answers(ka, body.deadline, polls[i + 1..]));
      if answer.Frame? {
        Associative(wire, answer.bytes, rest);
        wire := wire + answer.bytes;
      } else {
        assert "" + rest == rest;
      }
    }
    OutputFrom(ka, body.deadline, polls, |polls|);
    AnswersFrom(ka, body.deadline, polls, |polls|);
    assert wire + "" == wire && answers + [] == answers;
  }

  /** What a client reads in the bytes a body puts out. */
  method Transmit(ka: Option<KeepAlive>, start: real, polls: seq<Poll>) returns (wire: string)
    requires ka.Some? ==> FromBuilder(ka.value)
    requires forall e :: e in Yielded(polls) ==> Built(e)
    ensures Read(wire).dispatched == Messages(Yielded(polls), "")
       <==> forall e :: e in Yielded(polls) ==> DataCrFree(e)
  {
    hide *;
    var answers;
    wire, answers := PutOut(ka, start, polls);
    StreamRoundTripIff(ka, start, polls);
  }

  lemma AnswersFrom(ka: Option<KeepAlive>, deadline: real, polls: seq<Poll>, i: nat)
    requires i <= |polls|
    ensures i == |polls| ==> Answers(ka, deadline, polls[i..]) == []
    ensures i == 0 ==> polls[i..] == polls
    ensures i < |polls| ==>
      var (a, next) := PollStep(ka, deadline, polls[i].0, polls[i].1);
      Answers(ka, deadline, polls[i..]) == [a] + Answers(ka, next, polls[i + 1..])
  {
    hide PollStep;
    if i < |polls| {
      assert polls[i..][0] == polls[i] && polls[i..][1..] == polls[i + 1..];
    }
  }

  lemma OutputFrom(ka: Option<KeepAlive>, deadline: real, polls: seq<Poll>, i: nat)
    requires i <= |polls|
    ensures i == |polls| ==> Output(Answers(ka, deadline, polls[i..])) == ""
    ensures i == 0 ==> polls[i..] == polls
    ensures i < |polls| ==>
      var (a, next) := PollStep(ka, deadline, polls[i].0, polls[i].1);
      Output(Answers(ka, deadline, polls[i..]))
      == (if a.Frame? then a.bytes else "") + Output(Answers(ka, next, polls[i + 1..]))
  {
    hide PollStep;
    if i < |polls| {
      assert polls[i..][0] == polls[i] && polls[i..][1..] == polls[i + 1..];
      var (a, next) := PollStep(ka, deadline, polls[i].0, polls[i].1);
      assert Answers(ka, deadline, polls[i..])[1..] == Answers(ka, next, polls[i + 1..]);
    }
  }

  // ---------------------------------------------------------------- the timer

  /** When the last frame before the end of `polls` went out, or `start` if none did. */
  function LastFrameAt(ka: KeepAlive, start: real, polls: seq<Poll>): real
    decreases |polls|
  {
    if polls == [] then start
    else
      var n := |polls| - 1;
      var answers := Answers(Some(ka), start + ka.interval, polls);
      if answers[n].Frame? then polls[n].1 else LastFrameAt(ka, start, polls[..n])
  }

  function DeadlineAfter(ka: Option<KeepAlive>, deadline: real, polls: seq<Poll>): real
    decreases |polls|
  {
    if polls == [] then deadline
    else DeadlineAfter(ka, PollStep(ka, deadline, polls[0].0, polls[0].1).1, polls[1..])
  }

  lemma {:induction false} AnswersSnoc(ka: Option<KeepAlive>, deadline: real, polls: seq<Poll>, p: Poll)
    ensures var d := DeadlineAfter(ka, deadline, polls);
            && Answers(ka, deadline, polls + [p]) == Answers(ka, deadline, polls) + [PollStep(ka, d, p.0, p.1).0]
            && DeadlineAfter(ka, deadline, polls + [p]) == PollStep(ka, d, p.0, p.1).1
    decreases |polls|
  {
    if polls == [] {
      assert polls + [p] == [p];
    } else {
      assert (polls + [p])[1..] == polls[1..] + [p];
      AnswersSnoc(ka, PollStep(ka, deadline, polls[0].0, polls[0].1).1, polls[1..], p);
    }
  }

  lemma LastFrameSnoc(ka: KeepAlive, start: real, polls: seq<Poll>, p: Poll)
    ensures LastFrameAt(ka, start, []) == start && DeadlineAfter(Some(ka), start, []) == start
    ensures LastFrameAt(ka, start, polls + [p])
         == if Answers(Some(ka), start + ka.interval, polls + [p])[|polls|].Frame? then p.1
            else LastFrameAt(ka, start, polls)
  {
    hide Answers;
    assert (polls + [p])[..|polls|] == polls;
  }

  /** Every frame, and nothing else, moves the deadline to an interval from now. */
  lemma FramesReset(ka: KeepAlive, deadline: real, p: Poll)
    ensures var (a, next) := PollStep(Some(ka), deadline, p.0, p.1);
      next == if a.Frame? then p.1 + ka.interval else deadline
  {
  }

  lemma {:induction false} DeadlineIsLastFramePlusInterval(ka: KeepAlive, start: real, polls: seq<Poll>)
    ensures DeadlineAfter(Some(ka), start + ka.interval, polls) == LastFrameAt(ka, start, polls) + ka.interval
    decreases |polls|
  {
    hide *;
    if polls == [] {
      LastFrameSnoc(ka, start, [], (Pending, start));
      LastFrameSnoc(ka, start + ka.interval, [], (Pending, start));
    } else {
      var rest, p := polls[..|polls| - 1], polls[|polls| - 1];
      assert polls == rest + [p];
      DeadlineIsLastFramePlusInterval(ka, start, rest);
      AnswersSnoc(Some(ka), start + ka.interval, rest, p);
      LastFrameSnoc(ka, start, rest, p);
      FramesReset(ka, DeadlineAfter(Some(ka), start + ka.interval, rest), p);
    }
  }

  /** A comment frame goes out exactly when the stream has nothing and a full interval has passed
      since the last frame of any kind. */
  lemma KeepAliveIffIdle(ka: KeepAlive, start: real, polls: seq<Poll>, now: real)
    ensures Answers(Some(ka), start + ka.interval, polls + [(Pending, now)])[|polls|]
         == if now - LastFrameAt(ka, start, polls) >= ka.interval then Frame(ka.commentBytes) else NotReady
  {
    DeadlineIsLastFramePlusInterval(ka, start, polls);
    AnswersSnoc(Some(ka), start + ka.interval, polls, (Pending, now));
  }
}
