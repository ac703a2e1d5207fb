/** The Server-Sent Event builder and printer (arvik-sse/src/event.rs). */
module SseEvent {
  import opened Wrappers
  import opened Decimal
  import opened Sequences
  import opened EventStream

  // ---------------------------------------------------------------- builders

  datatype EventValue = EventValue(
    comment: Option<string>, id: Option<string>, event: Option<string>,
    data: Option<string>, retry: Option<nat>)

  const DEFAULT := EventValue(None, None, None, None, None)

  /** `replace("\r\n", "\n")` */
  function ReplaceCrLf(s: string): string {
    if s == "" then ""
    else if |s| >= 2 && s[0] == '\r' && s[1] == '\n' then "\n" + ReplaceCrLf(s[2..])
    else [s[0]] + ReplaceCrLf(s[1..])
  }

  /** `replace('\r', "\n")` */
  function ReplaceCr(s: string): (r: string)
    ensures '\r' !in r
  {
    seq(|s|, i requires 0 <= i < |s| => if s[i] == '\r' then '\n' else s[i])
  }

  function NormalizeNewlines(raw: string): (r: string)
    ensures '\r' !in r
  {
    ReplaceCr(ReplaceCrLf(raw))
  }

  /** `filter(|&c| c != '\0')` */
  function DropNuls(s: string): (r: string)
    ensures '\0' !in r
    ensures NoBreaks(s) ==> NoBreaks(r)
  {
    if s == "" then "" else (if s[0] == '\0' then "" else [s[0]]) + DropNuls(s[1..])
  }

  /** What filtering means: texts are filtered part by part, NULs go and every other character stays. */
  lemma DropNulsFilters(a: string, b: string, c: char)
    ensures DropNuls("") == ""
    ensures DropNuls([c]) == if c == '\0' then "" else [c]
    ensures DropNuls(a + b) == DropNuls(a) + DropNuls(b)
  {
    assert [c][1..] == "" && [c] + "" == [c];
    DropNulsAppend(a, b);
  }

  lemma {:induction false} DropNulsAppend(a: string, b: string)
    ensures DropNuls(a + b) == DropNuls(a) + DropNuls(b)
  {
    if a == "" {
      assert a + b == b;
    } else {
      assert (a + b)[1..] == a[1..] + b;
      DropNulsAppend(a[1..], b);
    }
  }

  lemma {:induction false} NothingDropped(s: string)
    requires '\0' !in s
    ensures DropNuls(s) == s
  {
    if s != "" {
      NothingDropped(s[1..]);
      assert [s[0]] + s[1..] == s;
    }
  }

  /** All of `s` up to its first line break. */
  function FirstLine(s: string): (r: string)
    ensures r <= s && NoBreaks(r) && (r == s || IsBreak(s[|r|]))
  {
    s[..FirstBreak(s)]
  }

  /** What all builders guarantee of the fields. */
  predicate Built(e: EventValue) {
    && (e.comment.Some? ==> '\r' !in e.comment.value)
    && (e.id.Some? ==> NoBreaks(e.id.value) && '\0' !in e.id.value)
    && (e.event.Some? ==> NoBreaks(e.event.value))
    && (e.retry.Some? ==> e.retry.value <= U64_MAX)
  }

  /** What `data` guarantees as well, and `json_data` does not. */
  predicate DataCrFree(e: EventValue) { e.data.Some? ==> '\r' !in e.data.value }

  predicate WellFormed(e: EventValue) { Built(e) && DataCrFree(e) }

  // ---------------------------------------------------------------- wire format

  function Prefixed(prefix: string, lines: seq<string>): (r: seq<string>)
    ensures |r| == |lines|
  {
    seq(|lines|, i requires 0 <= i < |lines| => prefix + lines[i])
  }

  function CommentLines(e: EventValue): seq<string> {
    if e.comment.Some? then Prefixed(": ", Split(e.comment.value, '\n')) else []
  }

  function IdLines(e: EventValue): seq<string> {
    if e.id.Some? then ["id: " + e.id.value] else []
  }

  function EventLines(e: EventValue): seq<string> {
    if e.event.Some? then ["event: " + e.event.value] else []
  }

  function DataLines(e: EventValue): seq<string> {
    if e.data.Some? then Prefixed("data: ", Split(e.data.value, '\n')) else []
  }

  function RetryLines(e: EventValue): seq<string> {
    if e.retry.Some? then ["retry: " + Print(e.retry.value)] else []
  }

  function FieldLines(e: EventValue): seq<string> {
    CommentLines(e) + IdLines(e) + EventLines(e) + DataLines(e) + RetryLines(e)
  }

  /** The fields, each on lines of its own, and one blank line. */
  function Wire(e: EventValue): string { Terminated(FieldLines(e) + [""]) }

  // ---------------------------------------------------------------- bytes

  /** Bytes of one scalar value in UTF-8. */
  function Utf8Len(c: char): (n: nat)
    ensures 1 <= n <= 4
  {
    if c as int < 0x80 then 1 else if c as int < 0x800 then 2 else if c as int < 0x1_0000 then 3 else 4
  }

  function ByteLen(s: string): nat {
    if s == "" then 0 else Utf8Len(s[0]) + ByteLen(s[1..])
  }

  /** `estimate_wire_len` in closed form. */
  function EstimatedLen(e: EventValue): nat {
    1
    + (if e.comment.Some? then 3 * |Split(e.comment.value, '\n')| + ByteLen(e.comment.value) else 0)
    + (if e.id.Some? then 4 + ByteLen(e.id.value) + 1 else 0)
    + (if e.event.Some? then 7 + ByteLen(e.event.value) + 1 else 0)
    + (if e.data.Some? then
         var lines := |Split(e.data.value, '\n')|;
         7 * lines + ByteLen(e.data.value) - DataBreaks(e.data.value)
       else 0)
    + (if e.retry.Some? then 7 + 20 + 1 else 0)
  }

  /** `lines - 1` of a data value: the separators that splitting consumes. */
  function DataBreaks(data: string): (n: nat)
    ensures n <= ByteLen(data) && n == |Split(data, '\n')| - 1
  {
    BreaksFit(data);
    |Split(data, '\n')| - 1
  }

  lemma {:induction false} BreaksFit(s: string)
    ensures |Split(s, '\n')| - 1 <= ByteLen(s)
  {
    if s != "" { BreaksFit(s[1..]); }
  }

  class Event {
    var comment: Option<string>
    var id: Option<string>
    var event: Option<string>
    var data: Option<string>
    var retry: Option<nat>

    function Fields(): EventValue
      reads this
    {
      EventValue(comment, id, event, data, retry)
    }

    ghost predicate Valid()
      reads this
    {
      Built(Fields())
    }

    constructor ()
      ensures Valid() && Fields() == DEFAULT
    {
      comment, id, event, data, retry := None, None, None, None, None;
    }

    method Data(raw: string)
      requires Valid()
      modifies this`data
      ensures Valid() && data == Some(NormalizeNewlines(raw))
    {
      var s := Normalized(raw);
      data := Some(s);
    }

    /** `json_data`: what the serializer made is the data as it is; `None` is the serializer's error. */
    method JsonData(json: Option<string>) returns (ok: bool)
      requires Valid()
      modifies this`data
      ensures Valid() && ok == json.Some? && data == if ok then json else old(data)
    {
      if json.None? {
        return false;
      }
      data := json;
      return true;
    }

    method Comment(raw: string)
      requires Valid()
      modifies this`comment
      ensures Valid() && comment == Some(NormalizeNewlines(raw))
    {
      var s := Normalized(raw);
      comment := Some(s);
    }

    /** Both builders skip the two replacements when there is no CR to replace. */
    static method Normalized(raw: string) returns (s: string)
      ensures s == NormalizeNewlines(raw)
    {
      if '\r' in raw {
        s := NormalizeNewlines(raw);
      } else {
        NothingToNormalize(raw);
        s := raw;
      }
    }

    method Id(raw: string)
      requires Valid()
      modifies this`id
      ensures Valid() && id == Some(DropNuls(FirstLine(raw)))
      ensures NoBreaks(raw) && '\0' !in raw ==> id == Some(raw)
    {
      if NoBreaks(raw) && '\0' !in raw {
        NothingDropped(raw);
        assert FirstLine(raw) == raw;
      }
      id := Some(DropNuls(FirstLine(raw)));
    }

    method EventType(raw: string)
      requires Valid()
      modifies this`event
      ensures Valid() && event == Some(FirstLine(raw))
      ensures event.value <= raw && NoBreaks(event.value) && (event.value == raw || IsBreak(raw[|event.value|]))
    {
      event := Some(FirstLine(raw));
    }

    /** `duration.as_millis() as u64`: the cast keeps the low 64 bits. */
    method Retry(millis: nat)
      requires Valid()
      modifies this`retry
      ensures Valid() && retry == Some(millis % (U64_MAX + 1))
    {
      retry := Some(millis % (U64_MAX + 1));
    }

    static method AppendField(buf: string, prefix: string, value: string, ghost before: seq<string>)
      returns (r: string)
      requires buf == Terminated(before)
      ensures r == Terminated(before + [prefix + value])
    {
      r := buf + prefix;
      r := r + value;
      r := r + "\n";
      TerminatedAppend(before, [prefix + value]);
      assert Terminated([prefix + value]) == prefix + value + "\n";
    }

    static method AppendLines(buf: string, prefix: string, text: string, ghost before: seq<string>)
      returns (r: string)
      requires buf == Terminated(before)
      ensures r == Terminated(before + Prefixed(prefix, Split(text, '\n')))
    {
      hide *;
      r := buf;
      var lines := Split(text, '\n');
      PrefixedTake(before, prefix, lines, 0);
      for i := 0 to |lines|
        invariant r == Terminated(before + Prefixed(prefix, lines[..i]))
      {
        r := AppendField(r, prefix, lines[i], before + Prefixed(prefix, lines[..i]));
        PrefixedTake(before, prefix, lines, i);
      }
      assert lines[..|lines|] == lines;
    }

    lemma FieldsAre()
      ensures Fields() == EventValue(comment, id, event, data, retry)
    {
    }

    method Serialize() returns (buf: string)
      ensures buf == Wire(Fields())
    {
      hide *;
      FieldsAre();
      ghost var e := Fields();
      SectionLines(e);
      WireIs(e);
      buf := "";
      ghost var lines := CommentLines(e);
      if comment.Some? {
        buf := AppendLines(buf, ": ", comment.value, []);
        assert [] + lines == lines;
      }
      if id.Some? {
        buf := AppendField(buf, "id: ", id.value, lines);
      }
      assert lines + [] == lines;
      lines := lines + IdLines(e);
      if event.Some? {
        buf := AppendField(buf, "event: ", event.value, lines);
      }
      assert lines + [] == lines;
      lines := lines + EventLines(e);
      match data {
        case Some(d) =>
          if d == "" {
            EmptyDataLine(e);
            buf := AppendField(buf, "data: ", "", lines);
          } else {
            buf := AppendLines(buf, "data: ", d, lines);
          }
        case None =>
      }
      assert lines + [] == lines;
      lines := lines + DataLines(e);
      if retry.Some? {
        buf := AppendField(buf, "retry: ", Print(retry.value), lines);
      }
      assert lines + [] == lines;
      lines := lines + RetryLines(e);
      buf := AppendField(buf, "", "", lines);
      assert "" + "" == "";
    }

    method EstimateWireLen() returns (n: nat)
      ensures n == EstimatedLen(Fields())
    {
      n := 1;
      if comment.Some? {
        n := n + |Split(comment.value, '\n')| * 3 + ByteLen(comment.value);
      }
      if id.Some? {
        n := n + 4 + ByteLen(id.value) + 1;
      }
      if event.Some? {
        n := n + 7 + ByteLen(event.value) + 1;
      }
      if data.Some? {
        var lines := if data.value == "" then 1 else |Split(data.value, '\n')|;
        BreaksFit(data.value);
        n := n + lines * 7 + ByteLen(data.value) - (lines - 1);
      }
      if retry.Some? {
        n := n + 7 + 20 + 1;
      }
    }
  }

  lemma PrefixedTake(before: seq<string>, prefix: string, lines: seq<string>, i: nat)
    requires i <= |lines|
    ensures i == 0 ==> before + Prefixed(prefix, lines[..i]) == before
    ensures i < |lines| ==>
      before + Prefixed(prefix, lines[..i]) + [prefix + lines[i]] == before + Prefixed(prefix, lines[..i + 1])
  {
  }

  /** Which lines each field gives. */
  lemma SectionLines(e: EventValue)
    ensures CommentLines(e) == if e.comment.Some? then Prefixed(": ", Split(e.comment.value, '\n')) else []
    ensures IdLines(e) == if e.id.Some? then ["id: " + e.id.value] else []
    ensures EventLines(e) == if e.event.Some? then ["event: " + e.event.value] else []
    ensures DataLines(e) == if e.data.Some? then Prefixed("data: ", Split(e.data.value, '\n')) else []
    ensures RetryLines(e) == if e.retry.Some? then ["retry: " + Print(e.retry.value)] else []
    ensures Terminated([]) == ""
  {
  }

  lemma WireIs(e: EventValue)
    ensures Wire(e)
         == Terminated(CommentLines(e) + IdLines(e) + EventLines(e) + DataLines(e) + RetryLines(e) + [""])
  {
    hide CommentLines, IdLines, EventLines, DataLines, RetryLines, Terminated;
  }

  lemma EmptyDataLine(e: EventValue)
    requires e.data == Some("")
    ensures DataLines(e) == ["data: " + ""]
  {
    assert "data: " + "" == "data: ";
    assert Prefixed("data: ", Split("", '\n')) == ["data: "];
  }

  lemma {:induction false} NothingToNormalize(s: string)
    requires '\r' !in s
    ensures NormalizeNewlines(s) == s
  {
    NoCrLf(s);
  }

  lemma {:induction false} NoCrLf(s: string)
    requires '\r' !in s
    ensures ReplaceCrLf(s) == s
  {
    if s != "" {
      NoCrLf(s[1..]);
      assert s[0] != '\r';
    }
  }
}
