/** The reading side of Server-Sent Events: interpreting an event stream, sections 9.2.5 and 9.2.6 of
    the WHATWG HTML Standard. A `char` is a Unicode scalar value, as in a decoded stream. */
module EventStream {
  import opened Wrappers
  import opened Decimal

  datatype Message = Message(eventType: string, data: string, lastEventId: string)

  /** The three buffers, the event source's last event ID string and reconnection time, and the
      messages dispatched so far. */
  datatype Parser = Parser(
    data: string, eventType: string, idBuffer: string,
    lastEventId: string, reconnection: Option<nat>, dispatched: seq<Message>)

  const FRESH := Parser("", "", "", "", None, [])

  predicate IsBreak(c: char) { c == '\n' || c == '\r' }

  predicate NoBreaks(s: string) { forall i :: 0 <= i < |s| ==> !IsBreak(s[i]) }

  /** Where the first line of `s` ends, or |s| when nothing ends it. */
  function FirstBreak(s: string): (i: nat)
    ensures i <= |s| && NoBreaks(s[..i]) && (i < |s| ==> IsBreak(s[i]))
  {
    if s == [] || IsBreak(s[0]) then 0 else 1 + FirstBreak(s[1..])
  }

  /** A CRLF pair, a lone LF and a lone CR each end a line. */
  function BreakWidth(s: string): (w: nat)
    requires s != [] && IsBreak(s[0])
    ensures 1 <= w <= |s|
  {
    if s[0] == '\r' && |s| > 1 && s[1] == '\n' then 2 else 1
  }

  function IndexOf(s: string, c: char): (i: nat)
    ensures i <= |s| && (i < |s| ==> s[i] == c) && forall j :: 0 <= j < i ==> s[j] != c
  {
    if s == [] || s[0] == c then 0 else 1 + IndexOf(s[1..], c)
  }

  function Dispatch(p: Parser): Parser {
    var q := p.(lastEventId := p.idBuffer, data := "", eventType := "");
    if p.data == "" then q
    else
      var data := if p.data[|p.data| - 1] == '\n' then p.data[..|p.data| - 1] else p.data;
      var eventType := if p.eventType == "" then "message" else p.eventType;
      q.(dispatched := p.dispatched + [Message(eventType, data, p.idBuffer)])
  }

  function ProcessField(p: Parser, field: string, value: string): Parser {
    if field == "event" then p.(eventType := value)
    else if field == "data" then p.(data := p.data + value + "\n")
    else if field == "id" then (if '\0' in value then p else p.(idBuffer := value))
    else if field == "retry" then
      (if value != "" && AllDigits(value) then p.(reconnection := Some(Value(value))) else p)
    else p
  }

  function ProcessLine(p: Parser, line: string): Parser {
    if line == "" then Dispatch(p)
    else if line[0] == ':' then p
    else
      var i := IndexOf(line, ':');
      if i < |line| then
        var value := line[i + 1..];
        ProcessField(p, line[..i], if value != "" && value[0] == ' ' then value[1..] else value)
      else ProcessField(p, line, "")
  }

  /** Lines are processed as they are read; a line the input does not end is discarded. */
  function Interpret(s: string, p: Parser): Parser
    decreases |s|
  {
    var i := FirstBreak(s);
    if i == |s| then p
    else Interpret(s[i..][BreakWidth(s[i..])..], ProcessLine(p, s[..i]))
  }

  /** UTF-8 decoding drops one leading byte order mark. */
  function StripBom(s: string): string {
    if s != "" && s[0] == '\U{FEFF}' then s[1..] else s
  }

  /** A client that reads a whole stream. */
  function Read(stream: string): Parser { Interpret(StripBom(stream), FRESH) }

  /** The lines of `s` in the standard's sense, for a text whose last line needs no terminator. */
  function Lines(s: string): seq<string>
    decreases |s|
  {
    var i := FirstBreak(s);
    if i == |s| then [s] else [s[..i]] + Lines(s[i..][BreakWidth(s[i..])..])
  }

  function ProcessLines(p: Parser, lines: seq<string>): Parser
    decreases |lines|
  {
    if lines == [] then p else ProcessLines(ProcessLine(p, lines[0]), lines[1..])
  }

  function Terminated(lines: seq<string>): string {
    if lines == [] then "" else lines[0] + "\n" + Terminated(lines[1..])
  }

  lemma {:induction false} TerminatedAppend(a: seq<string>, b: seq<string>)
    ensures Terminated(a + b) == Terminated(a) + Terminated(b)
  {
    if a == [] {
      assert a + b == b;
    } else {
      assert (a + b)[1..] == a[1..] + b;
      TerminatedAppend(a[1..], b);
    }
  }

  lemma {:induction false} ProcessLinesAppend(p: Parser, a: seq<string>, b: seq<string>)
    ensures ProcessLines(p, a + b) == ProcessLines(ProcessLines(p, a), b)
    decreases |a|
  {
    if a == [] {
      assert a + b == b;
    } else {
      assert (a + b)[1..] == a[1..] + b;
      ProcessLinesAppend(ProcessLine(p, a[0]), a[1..], b);
    }
  }

  lemma {:induction false} FirstBreakAt(line: string, rest: string)
    requires NoBreaks(line)
    ensures FirstBreak(line + "\n" + rest) == |line|
  {
    var s := line + "\n" + rest;
    if line != "" {
      assert s[1..] == line[1..] + "\n" + rest;
      FirstBreakAt(line[1..], rest);
    }
  }

  /** Text made of whole lines is read line by line, and what follows is read afterwards. */
  lemma {:induction false} InterpretTerminated(lines: seq<string>, rest: string, p: Parser)
    requires forall l :: l in lines ==> NoBreaks(l)
    ensures Interpret(Terminated(lines) + rest, p) == Interpret(rest, ProcessLines(p, lines))
    decreases |lines|
  {
    hide ProcessLine;
    if lines == [] {
      assert Terminated(lines) + rest == rest;
    } else {
      var line, tail := lines[0], Terminated(lines[1..]) + rest;
      var s := Terminated(lines) + rest;
      assert s == line + "\n" + tail;
      FirstBreakAt(line, tail);
      assert s[..|line|] == line && s[|line|..] == "\n" + tail;
      assert BreakWidth("\n" + tail) == 1;
      assert ("\n" + tail)[1..] == tail;
      InterpretTerminated(lines[1..], rest, ProcessLine(p, line));
    }
  }

  // ---------------------------------------------------------------- no CR survives reading

  ghost predicate CrFree(p: Parser) {
    '\r' !in p.data && forall i :: 0 <= i < |p.dispatched| ==> '\r' !in p.dispatched[i].data
  }

  lemma LineKeepsCrFree(p: Parser, line: string)
    requires NoBreaks(line) && CrFree(p)
    ensures CrFree(ProcessLine(p, line))
  {
    forall c | c in line ensures c != '\r' {
      var i :| 0 <= i < |line| && line[i] == c;
    }
    if line != "" && line[0] != ':' {
      var i := IndexOf(line, ':');
      if i < |line| {
        var value := line[i + 1..];
        assert '\r' !in value && (value != "" ==> '\r' !in value[1..]);
      }
    }
  }

  /** A CR always ends a line, so none reaches a message. */
  lemma {:induction false} ReadingDropsCr(s: string, p: Parser)
    requires CrFree(p)
    ensures CrFree(Interpret(s, p))
    decreases |s|
  {
    hide ProcessLine, CrFree;
    var i := FirstBreak(s);
    if i < |s| {
      LineKeepsCrFree(p, s[..i]);
      ReadingDropsCr(s[i..][BreakWidth(s[i..])..], ProcessLine(p, s[..i]));
    }
  }
}
