/** A client reads back what the printer wrote. */
module SseRoundTrip {
  import opened Wrappers
  import opened Decimal
  import opened Sequences
  import opened EventStream
  import opened SseEvent

  /** Between events: nothing is buffered. */
  ghost predicate Clean(p: Parser) { p.data == "" && p.eventType == "" }

  function EventTypeOf(e: EventValue): string {
    if e.event.Some? && e.event.value != "" then e.event.value else "message"
  }

  /** What an event means to a client: a new last event ID if it has one, a new reconnection time
      if it has one, and a message if it carries data. */
  function Deliver(p: Parser, e: EventValue): Parser {
    var id := if e.id.Some? then e.id.value else p.idBuffer;
    p.(idBuffer := id,
       lastEventId := id,
       reconnection := if e.retry.Some? then e.retry else p.reconnection,
       dispatched := p.dispatched
         + (if e.data.Some? then [Message(EventTypeOf(e), e.data.value, id)] else []))
  }

  // ---------------------------------------------------------------- one field at a time

  lemma {:induction false} CommentsAreIgnored(p: Parser, lines: seq<string>)
    ensures ProcessLines(p, Prefixed(": ", lines)) == p
    decreases |lines|
  {
    if lines != [] {
      assert Prefixed(": ", lines)[0] == ": " + lines[0];
      assert Prefixed(": ", lines)[1..] == Prefixed(": ", lines[1..]);
      CommentsAreIgnored(p, lines[1..]);
    }
  }

  lemma {:induction false} IndexOfColon(name: string, value: string)
    requires ':' !in name
    ensures IndexOf(name + ": " + value, ':') == |name|
  {
    var line := name + ": " + value;
    if name != "" {
      assert line[1..] == name[1..] + ": " + value;
      IndexOfColon(name[1..], value);
    }
  }

  /** `name: value` sets field `name` to `value`: the parser drops the one space the printer put in. */
  lemma FieldLine(p: Parser, name: string, value: string)
    requires name != "" && ':' !in name
    ensures ProcessLine(p, name + ": " + value) == ProcessField(p, name, value)
  {
    var line := name + ": " + value;
    IndexOfColon(name, value);
    assert line[0] == name[0];
    assert line[..|name|] == name;
    assert line[|name| + 1..] == " " + value;
    assert (" " + value)[1..] == value;
  }

  lemma DataLine(p: Parser, value: string)
    ensures ProcessLine(p, "data: " + value) == p.(data := p.data + (value + "\n"))
  {
    assert "data" + ": " == "data: ";
    FieldLine(p, "data", value);
    assert p.data + value + "\n" == p.data + (value + "\n");
  }

  lemma {:induction false} DataAccumulates(p: Parser, lines: seq<string>)
    ensures ProcessLines(p, Prefixed("data: ", lines)) == p.(data := p.data + Terminated(lines))
    decreases |lines|
  {
    hide ProcessLine;
    var all := Prefixed("data: ", lines);
    if lines == [] {
      assert p.data + "" == p.data;
    } else {
      DataLine(p, lines[0]);
      assert all[0] == "data: " + lines[0] && all[1..] == Prefixed("data: ", lines[1..]);
      DataAccumulates(ProcessLine(p, all[0]), lines[1..]);
      Associative(p.data, lines[0] + "\n", Terminated(lines[1..]));
    }
  }

  lemma {:induction false} TerminatedIsJoin(lines: seq<string>)
    requires lines != []
    ensures Terminated(lines) == Join(lines, '\n') + "\n"
  {
    if |lines| > 1 {
      TerminatedIsJoin(lines[1..]);
    } else {
      assert Terminated(lines[1..]) == "";
    }
  }

  lemma DataLinesAccumulate(p: Parser, e: EventValue)
    requires e.data.Some?
    ensures ProcessLines(p, DataLines(e)) == p.(data := p.data + e.data.value + "\n")
  {
    var parts := Split(e.data.value, '\n');
    DataAccumulates(p, parts);
    TerminatedIsJoin(parts);
    JoinSplit(e.data.value, '\n');
    assert p.data + (e.data.value + "\n") == p.data + e.data.value + "\n";
  }

  lemma SingleLine(p: Parser, line: string)
    ensures ProcessLines(p, [line]) == ProcessLine(p, line)
  {
    assert [line][1..] == [];
  }

  lemma IdLineSets(p: Parser, e: EventValue)
    requires WellFormed(e)
    ensures ProcessLines(p, IdLines(e)) == p.(idBuffer := if e.id.Some? then e.id.value else p.idBuffer)
  {
    if e.id.Some? {
      SingleLine(p, "id: " + e.id.value);
      assert "id" + ": " == "id: ";
      FieldLine(p, "id", e.id.value);
    }
  }

  lemma EventLineSets(p: Parser, e: EventValue)
    ensures ProcessLines(p, EventLines(e)) == p.(eventType := if e.event.Some? then e.event.value else p.eventType)
  {
    if e.event.Some? {
      SingleLine(p, "event: " + e.event.value);
      assert "event" + ": " == "event: ";
      FieldLine(p, "event", e.event.value);
    }
  }

  lemma RetryLineSets(p: Parser, e: EventValue)
    ensures ProcessLines(p, RetryLines(e))
         == p.(reconnection := if e.retry.Some? then e.retry else p.reconnection)
  {
    if e.retry.Some? {
      SingleLine(p, "retry: " + Print(e.retry.value));
      assert "retry" + ": " == "retry: ";
      FieldLine(p, "retry", Print(e.retry.value));
      ValuePrint(e.retry.value);
    }
  }

  // ---------------------------------------------------------------- whole events

  lemma FieldsBuffer(p: Parser, e: EventValue)
    requires WellFormed(e) && Clean(p)
    ensures ProcessLines(p, FieldLines(e)) == p.(
              idBuffer := if e.id.Some? then e.id.value else p.idBuffer,
              eventType := if e.event.Some? then e.event.value else "",
              data := if e.data.Some? then e.data.value + "\n" else "",
              reconnection := if e.retry.Some? then e.retry else p.reconnection)
  {
    var c, i, ev, d, r := CommentLines(e), IdLines(e), EventLines(e), DataLines(e), RetryLines(e);
    var p1 := ProcessLines(p, c);
    if e.comment.Some? {
      CommentsAreIgnored(p, Split(e.comment.value, '\n'));
    }
    assert p1 == p;
    var p2 := ProcessLines(p1, i);
    IdLineSets(p1, e);
    var p3 := ProcessLines(p2, ev);
    EventLineSets(p2, e);
    var p4 := ProcessLines(p3, d);
    if e.data.Some? {
      DataLinesAccumulate(p3, e);
      assert p3.data + e.data.value == e.data.value;
    }
    RetryLineSets(p4, e);
    hide CommentLines, IdLines, EventLines, DataLines, RetryLines, ProcessLines;
    ProcessLinesAppend(p, c + i + ev + d, r);
    ProcessLinesAppend(p, c + i + ev, d);
    ProcessLinesAppend(p, c + i, ev);
    ProcessLinesAppend(p, c, i);
  }

  lemma EventDelivered(p: Parser, e: EventValue)
    requires WellFormed(e) && Clean(p)
    ensures ProcessLines(p, FieldLines(e) + [""]) == Deliver(p, e)
    ensures Clean(Deliver(p, e))
  {
    FieldsBuffer(p, e);
    var q := ProcessLines(p, FieldLines(e));
    ProcessLinesAppend(p, FieldLines(e), [""]);
    SingleLine(q, "");
    if e.data.Some? {
      assert q.data[..|q.data| - 1] == e.data.value;
    } else {
      assert p.dispatched + [] == p.dispatched;
    }
  }

  lemma PrefixedNoBreaks(prefix: string, text: string)
    requires NoBreaks(prefix) && '\r' !in text
    ensures forall l :: l in Prefixed(prefix, Split(text, '\n')) ==> NoBreaks(l) && prefix <= l
  {
    SplitPieces(text, '\n');
    var parts := Split(text, '\n');
    forall i | 0 <= i < |parts|
      ensures NoBreaks(prefix + parts[i])
    {
      forall j | 0 <= j < |parts[i]|
        ensures !IsBreak(parts[i][j])
      {
        assert parts[i][j] in parts[i];
      }
    }
  }

  /** Lines that can be printed as they are. */
  ghost predicate Framed(lines: seq<string>) { forall l :: l in lines ==> l != "" && NoBreaks(l) }

  lemma FramedAppend(a: seq<string>, b: seq<string>)
    requires Framed(a) && Framed(b)
    ensures Framed(a + b)
  {
  }

  lemma SplitLinesFramed(e: EventValue)
    requires WellFormed(e)
    ensures Framed(CommentLines(e)) && Framed(DataLines(e))
  {
    hide Split;
    if e.comment.Some? { PrefixedNoBreaks(": ", e.comment.value); }
    if e.data.Some? { PrefixedNoBreaks("data: ", e.data.value); }
  }

  lemma SingleLinesFramed(e: EventValue)
    requires WellFormed(e)
    ensures Framed(IdLines(e)) && Framed(EventLines(e)) && Framed(RetryLines(e))
  {
    hide Print;
    if e.retry.Some? {
      var digits := Print(e.retry.value);
      assert forall i :: 0 <= i < |digits| ==> IsDigit(digits[i]) && !IsBreak(digits[i]);
    }
  }

  lemma FieldLinesParts(e: EventValue)
    ensures FieldLines(e) == CommentLines(e) + IdLines(e) + EventLines(e) + DataLines(e) + RetryLines(e)
  {
  }

  lemma FramedMeans(lines: seq<string>)
    ensures Framed(lines) <==> forall l :: l in lines ==> l != "" && NoBreaks(l)
  {
  }

  /** The framing is sound: no field line is empty and none contains a line break, so the only
      empty line of an event is the one that ends it. */
  lemma OnlyTerminatorIsEmpty(e: EventValue)
    requires WellFormed(e)
    ensures forall l :: l in FieldLines(e) ==> l != "" && NoBreaks(l)
  {
    hide *;
    var c, i, ev, d, r := CommentLines(e), IdLines(e), EventLines(e), DataLines(e), RetryLines(e);
    SplitLinesFramed(e);
    SingleLinesFramed(e);
    FramedAppend(c, i);
    FramedAppend(c + i, ev);
    FramedAppend(c + i + ev, d);
    FramedAppend(c + i + ev + d, r);
    FieldLinesParts(e);
    FramedMeans(FieldLines(e));
  }

  /** Round trip of one event, wherever it stands in a stream: the client does what the event says
      and goes on with the rest, nothing left in its buffers. */
  lemma WireRoundTrip(e: EventValue, rest: string, p: Parser)
    requires WellFormed(e) && Clean(p)
    ensures Interpret(Wire(e) + rest, p) == Interpret(rest, Deliver(p, e))
    ensures Clean(Deliver(p, e))
  {
    OnlyTerminatorIsEmpty(e);
    var lines := FieldLines(e) + [""];
    forall l | l in lines
      ensures NoBreaks(l)
    {
      hide FieldLines, ProcessLines, Deliver;
      assert l in FieldLines(e) || l == "";
    }
    InterpretTerminated(lines, rest, p);
    EventDelivered(p, e);
  }

  /** No event starts with a byte order mark, so decoding a stream of events drops nothing. */
  lemma NoBom(e: EventValue, rest: string)
    ensures StripBom(Wire(e) + rest) == Wire(e) + rest
  {
    var lines := FieldLines(e) + [""];
    var first := lines[0];
    assert Terminated(lines) == first + "\n" + Terminated(lines[1..]);
    assert first == "" || first[0] in ":iedr";
  }

  /** A client that reads the bytes of a single event. */
  lemma SingleEventRead(e: EventValue)
    requires WellFormed(e)
    ensures Read(Wire(e)).dispatched
         == if e.data.Some?
            then [Message(EventTypeOf(e), e.data.value, if e.id.Some? then e.id.value else "")]
            else []
    ensures Read(Wire(e)).lastEventId == if e.id.Some? then e.id.value else ""
    ensures Read(Wire(e)).reconnection == e.retry
  {
    assert Wire(e) + "" == Wire(e);
    NoBom(e, "");
    WireRoundTrip(e, "", FRESH);
    var done := Deliver(FRESH, e);
    assert Interpret("", done) == done;
    assert [] + done.dispatched == done.dispatched;
  }

  /** Data that was not normalised, as `json_data` stores it, is read back as it is if and only if it
      holds no CR. */
  lemma DataReadBackIff(e: EventValue)
    requires Built(e) && e.data.Some?
    ensures Read(Wire(e)).dispatched
         == [Message(EventTypeOf(e), e.data.value, if e.id.Some? then e.id.value else "")]
       <==> '\r' !in e.data.value
  {
    if '\r' !in e.data.value {
      SingleEventRead(e);
    } else {
      ReadingDropsCr(StripBom(Wire(e)), FRESH);
      var m := Message(EventTypeOf(e), e.data.value, if e.id.Some? then e.id.value else "");
      assert [m][0] == m;
    }
  }

  /** JSON text with a raw CR, as a serializer that passes text through can give it. */
  lemma RawCrIsLost()
    ensures var e := DEFAULT.(data := Some("a\rb"));
      Built(e) && Read(Wire(e)).dispatched != [Message("message", "a\rb", "")]
  {
    hide Read, Wire;
    var e := DEFAULT.(data := Some("a\rb"));
    assert "a\rb"[1] == '\r';
    DataReadBackIff(e);
  }

  // ---------------------------------------------------------------- what normalising means

  lemma {:induction false} FirstBreakPrefix(s: string, i: nat)
    requires i < |s| && NoBreaks(s[..i]) && IsBreak(s[i])
    ensures FirstBreak(s) == i
  {
    if i > 0 {
      assert s[1..][..i - 1] == s[..i][1..];
      assert s[..i][0] == s[0];
      FirstBreakPrefix(s[1..], i - 1);
    }
  }

  lemma {:induction false} NormalizeHead(line: string, rest: string)
    requires NoBreaks(line)
    ensures NormalizeNewlines(line + rest) == line + NormalizeNewlines(rest)
  {
    if line == "" {
      assert line + rest == rest;
    } else {
      var s := line + rest;
      assert s[1..] == line[1..] + rest;
      assert s[0] == line[0] && !IsBreak(line[0]);
      NormalizeHead(line[1..], rest);
      assert NormalizeNewlines(s) == [line[0]] + NormalizeNewlines(s[1..]);
    }
  }

  lemma NormalizeBreak(s: string)
    requires s != "" && IsBreak(s[0])
    ensures NormalizeNewlines(s) == "\n" + NormalizeNewlines(s[BreakWidth(s)..])
  {
  }

  /** The data a client gets back consists of the lines of the raw text, as the standard counts
      lines: CRLF, LF and CR each end one. */
  lemma {:induction false} NormalizedLines(raw: string)
    ensures Split(NormalizeNewlines(raw), '\n') == Lines(raw)
    decreases |raw|
  {
    var i := FirstBreak(raw);
    var line := raw[..i];
    assert raw == line + raw[i..];
    NormalizeHead(line, raw[i..]);
    assert '\n' !in line by {
      forall j | 0 <= j < i ensures line[j] != '\n' { assert !IsBreak(line[j]); }
    }
    if i == |raw| {
      assert raw[i..] == "" && NormalizeNewlines("") == "";
      assert line == raw && line + "" == line;
      SplitWhole(line, '\n');
    } else {
      var rest := raw[i..][BreakWidth(raw[i..])..];
      NormalizeBreak(raw[i..]);
      NormalizedLines(rest);
      assert Lines(raw) == [line] + Lines(rest);
      hide Lines, NormalizeNewlines, BreakWidth;
      SplitFirst(line, '\n', NormalizeNewlines(rest));
      assert line + ("\n" + NormalizeNewlines(rest)) == line + ['\n'] + NormalizeNewlines(rest);
    }
  }

  // ---------------------------------------------------------------- length

  lemma {:induction false} ByteLenAppend(a: string, b: string)
    ensures ByteLen(a + b) == ByteLen(a) + ByteLen(b)
  {
    if a == "" {
      assert a + b == b;
    } else {
      assert (a + b)[1..] == a[1..] + b;
      ByteLenAppend(a[1..], b);
    }
  }

  lemma {:induction false} ByteLenAscii(s: string)
    requires forall i :: 0 <= i < |s| ==> s[i] as int < 0x80
    ensures ByteLen(s) == |s|
  {
    if s != "" { ByteLenAscii(s[1..]); }
  }

  lemma TerminatedCons(line: string, rest: seq<string>)
    ensures Terminated([]) == "" && ByteLen("") == 0
    ensures Terminated([line] + rest) == line + "\n" + Terminated(rest)
  {
    assert ([line] + rest)[1..] == rest;
  }

  lemma PrefixedCons(prefix: string, line: string, rest: seq<string>)
    ensures Prefixed(prefix, []) == []
    ensures Prefixed(prefix, [line] + rest) == [prefix + line] + Prefixed(prefix, rest)
  {
  }

  lemma OneMoreTimes(n: nat, b: nat)
    ensures (n + 1) * b == n * b + b && 0 * b == 0
  {
  }

  lemma {:induction false} ByteLenPrefixed(prefix: string, lines: seq<string>)
    ensures ByteLen(Terminated(Prefixed(prefix, lines)))
         == |lines| * ByteLen(prefix) + ByteLen(Terminated(lines))
  {
    hide *;
    PrefixedCons(prefix, "", []);
    TerminatedCons("", []);
    if lines == [] {
      OneMoreTimes(0, ByteLen(prefix));
    } else {
      var line, rest := lines[0], lines[1..];
      assert lines == [line] + rest;
      PrefixedCons(prefix, line, rest);
      TerminatedCons(prefix + line, Prefixed(prefix, rest));
      TerminatedCons(line, rest);
      ByteLenPrefixed(prefix, rest);
      ByteLenAppend(prefix + line + "\n", Terminated(Prefixed(prefix, rest)));
      ByteLenAppend(prefix + line, "\n");
      ByteLenAppend(prefix, line);
      ByteLenAppend(line + "\n", Terminated(rest));
      ByteLenAppend(line, "\n");
      OneMoreTimes(|rest|, ByteLen(prefix));
    }
  }

  lemma SectionLen(prefix: string, text: string)
    ensures ByteLen(Terminated(Prefixed(prefix, Split(text, '\n'))))
         == |Split(text, '\n')| * ByteLen(prefix) + ByteLen(text) + 1
  {
    var parts := Split(text, '\n');
    ByteLenPrefixed(prefix, parts);
    TerminatedIsJoin(parts);
    JoinSplit(text, '\n');
    ByteLenAppend(text, "\n");
  }

  lemma LineLen(prefix: string, value: string)
    ensures ByteLen(Terminated([prefix + value])) == ByteLen(prefix) + ByteLen(value) + 1
  {
    assert Terminated([prefix + value]) == prefix + value + "\n";
    ByteLenAppend(prefix + value, "\n");
    ByteLenAppend(prefix, value);
  }

  lemma PrefixLens()
    ensures ByteLen(": ") == 2 && ByteLen("id: ") == 4 && ByteLen("event: ") == 7
    ensures ByteLen("data: ") == 6 && ByteLen("retry: ") == 7
  {
    hide ByteLen;
    ByteLenAscii(": ");
    ByteLenAscii("id: ");
    ByteLenAscii("event: ");
    ByteLenAscii("data: ");
    ByteLenAscii("retry: ");
  }

  function CommentSlack(e: EventValue): nat {
    if e.comment.Some? then |Split(e.comment.value, '\n')| - 1 else 0
  }

  function RetrySlack(e: EventValue): (n: int)
  {
    if e.retry.Some? then 20 - |Print(e.retry.value)| else 0
  }

  lemma CommentLen(e: EventValue)
    ensures ByteLen(Terminated(CommentLines(e)))
         == if e.comment.None? then 0
            else 3 * |Split(e.comment.value, '\n')| + ByteLen(e.comment.value) - CommentSlack(e)
  {
    PrefixLens();
    if e.comment.Some? { SectionLen(": ", e.comment.value); }
  }

  lemma DataLen(e: EventValue)
    ensures ByteLen(Terminated(DataLines(e)))
         == if e.data.None? then 0
            else 7 * |Split(e.data.value, '\n')| + ByteLen(e.data.value) - DataBreaks(e.data.value)
  {
    PrefixLens();
    if e.data.Some? { SectionLen("data: ", e.data.value); }
  }

  lemma ShortLens(e: EventValue)
    ensures ByteLen(Terminated(IdLines(e))) == if e.id.Some? then 4 + ByteLen(e.id.value) + 1 else 0
    ensures ByteLen(Terminated(EventLines(e))) == if e.event.Some? then 7 + ByteLen(e.event.value) + 1 else 0
    ensures ByteLen(Terminated(RetryLines(e))) == if e.retry.Some? then 7 + |Print(e.retry.value)| + 1 else 0
  {
    PrefixLens();
    if e.id.Some? { LineLen("id: ", e.id.value); }
    if e.event.Some? { LineLen("event: ", e.event.value); }
    if e.retry.Some? {
      LineLen("retry: ", Print(e.retry.value));
      ByteLenAscii(Print(e.retry.value));
    }
  }

  lemma WireLen(e: EventValue)
    ensures ByteLen(Wire(e))
         == ByteLen(Terminated(CommentLines(e))) + ByteLen(Terminated(IdLines(e)))
          + ByteLen(Terminated(EventLines(e))) + ByteLen(Terminated(DataLines(e)))
          + ByteLen(Terminated(RetryLines(e))) + 1
  {
    var c, i, ev, d, r := CommentLines(e), IdLines(e), EventLines(e), DataLines(e), RetryLines(e);
    assert Terminated([""]) == "\n" && ByteLen("\n") == 1;
    hide CommentLines, IdLines, EventLines, DataLines, RetryLines, Terminated;
    TerminatedAppend(c + i + ev + d + r, [""]);
    ByteLenAppend(Terminated(c + i + ev + d + r), Terminated([""]));
    TerminatedAppend(c + i + ev + d, r);
    ByteLenAppend(Terminated(c + i + ev + d), Terminated(r));
    TerminatedAppend(c + i + ev, d);
    ByteLenAppend(Terminated(c + i + ev), Terminated(d));
    TerminatedAppend(c + i, ev);
    ByteLenAppend(Terminated(c + i), Terminated(ev));
    TerminatedAppend(c, i);
    ByteLenAppend(Terminated(c), Terminated(i));
  }

  /** The estimate never falls short of the UTF-8 length, and is off by exactly one byte per line
      break in a comment and one per unused digit of the retry field. */
  lemma EstimateIsTight(e: EventValue)
    requires Built(e)
    ensures EstimatedLen(e) == ByteLen(Wire(e)) + CommentSlack(e) + RetrySlack(e)
    ensures RetrySlack(e) >= 0
    ensures ByteLen(Wire(e)) <= EstimatedLen(e)
  {
    if e.retry.Some? { PrintU64Length(e.retry.value); }
    WireLen(e);
    CommentLen(e);
    ShortLens(e);
    DataLen(e);
  }

  // ---------------------------------------------------------------- from the builders to the client

  /** Raw strings given to the builders, as a client ends up with them: the data line by line with
      LF between the lines, the type and the id cut at their first line break, the id without NULs,
      the comment nowhere. */
  method SendBuilt(comment: Option<string>, id: Option<string>, event: Option<string>, data: Option<string>,
                   retry: Option<nat>)
    returns (wire: string)
    ensures var read := Read(wire);
      var lastId := if id.Some? then DropNuls(FirstLine(id.value)) else "";
      var kind := if event.Some? && FirstLine(event.value) != "" then FirstLine(event.value) else "message";
      && read.dispatched == (if data.Some? then [Message(kind, Join(Lines(data.value), '\n'), lastId)] else [])
      && read.lastEventId == lastId
      && read.reconnection == (if retry.Some? then Some(retry.value % (U64_MAX + 1)) else None)
  {
    hide Interpret, Lines, NormalizeNewlines, DropNuls, FirstLine, Split, Join, Wire, EventStream.Read;
    var e := new Event();
    if comment.Some? { e.Comment(comment.value); }
    if id.Some? { e.Id(id.value); }
    if event.Some? { e.EventType(event.value); }
    if data.Some? {
      e.Data(data.value);
      NormalizedLines(data.value);
      JoinSplit(NormalizeNewlines(data.value), '\n');
    }
    if retry.Some? { e.Retry(retry.value); }
    SingleEventRead(e.Fields());
    wire := e.Serialize();
  }
}
