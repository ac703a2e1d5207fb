/** Range requests of static assets (arvik-static/src/lib.rs), against section 14.1.2 of RFC 9110. */
module ByteRange {
  import opened Wrappers
  import opened Decimal
  import opened Utf8

  datatype Decision = Full | Partial(start: nat, end: nat) | Unsatisfiable

  const UNIT := "bytes="

  /** `split_once` */
  function SplitOnce(s: string, c: char): (r: Option<(string, string)>)
    ensures r.None? <==> c !in s
    ensures r.Some? ==> c !in r.value.0 && s == r.value.0 + [c] + r.value.1
  {
    if s == "" then None
    else if s[0] == c then Some(("", s[1..]))
    else
      match SplitOnce(s[1..], c)
      case None => None
      case Some((a, b)) => Some(([s[0]] + a, b))
  }

  /** `parse_range`; `value` is `None` when the header is absent or not visible ASCII. */
  function ParseRange(value: Option<string>, len: nat): (d: Decision)
    ensures d == Full <==> Ignored(value)
    ensures d.Partial? ==> d.start <= d.end < len
  {
    if value.None? || !(UNIT <= value.value) then Full
    else
      var spec := value.value[|UNIT|..];
      if ',' in spec || spec == "" then Full
      else
        match SplitOnce(spec, '-')
        case None => Unsatisfiable
        case Some((first, last)) =>
          if len == 0 then Unsatisfiable
          else if first == "" then SuffixRange(last, len)
          else IntRange(first, last, len)
  }

  function SuffixRange(last: string, len: nat): (d: Decision)
    requires len > 0
    ensures d.Partial? ==> d.start <= d.end < len
  {
    match Parse(last, U64_MAX)
    case None => Unsatisfiable
    case Some(suffix) =>
      if suffix == 0 then Unsatisfiable
      else Partial(len - (if suffix < len then suffix else len), len - 1)
  }

  function IntRange(first: string, last: string, len: nat): (d: Decision)
    requires len > 0
    ensures d.Partial? ==> d.start <= d.end < len
  {
    match Parse(first, U64_MAX)
    case None => Unsatisfiable
    case Some(start) =>
      if start >= len then Unsatisfiable
      else if last == "" then Partial(start, len - 1)
      else
        match Parse(last, U64_MAX)
        case None => Unsatisfiable
        case Some(end) =>
          if end < start then Unsatisfiable
          else Partial(start, if end < len - 1 then end else len - 1)
  }

  // ---------------------------------------------------------------- what a range-spec selects

  datatype RangeSpec = FromTo(first: nat, last: nat) | From(first: nat) | Suffix(length: nat)

  function Render(spec: RangeSpec): string {
    UNIT + match spec
           case FromTo(first, last) => Print(first) + "-" + Print(last)
           case From(first) => Print(first) + "-"
           case Suffix(length) => "-" + Print(length)
  }

  /** Section 14.1.2 of RFC 9110: which positions of `len` bytes the range-spec asks for. */
  predicate Selects(spec: RangeSpec, len: nat, i: nat) {
    i < len && match spec
               case FromTo(first, last) => first <= i <= last
               case From(first) => first <= i
               case Suffix(length) => i + length >= len
  }

  predicate SelectsNothing(spec: RangeSpec, len: nat) {
    len == 0 || match spec
                case FromTo(first, last) => first >= len || last < first
                case From(first) => first >= len
                case Suffix(length) => length == 0
  }

  lemma SelectsNothingIff(spec: RangeSpec, len: nat)
    ensures SelectsNothing(spec, len) <==> forall i: nat :: !Selects(spec, len, i)
  {
    if !SelectsNothing(spec, len) {
      match spec
      case FromTo(first, _) => assert Selects(spec, len, first);
      case From(first) => assert Selects(spec, len, first);
      case Suffix(_) => assert Selects(spec, len, len - 1);
    }
  }

  /** The answer the range-spec calls for: the selected positions, or 416 when there are none. */
  ghost predicate Answers(d: Decision, spec: RangeSpec, len: nat) {
    match d
    case Full => false
    case Partial(start, end) => start <= end && forall i: nat :: start <= i <= end <==> Selects(spec, len, i)
    case Unsatisfiable => forall i: nat :: !Selects(spec, len, i)
  }

  /** The numerals that decide the answer are `u64`s. */
  predicate Readable(spec: RangeSpec) {
    match spec
    case FromTo(_, last) => last <= U64_MAX
    case From(_) => true
    case Suffix(length) => length <= U64_MAX
  }

  lemma {:induction false} SplitOnceAt(a: string, c: char, b: string)
    requires c !in a
    ensures SplitOnce(a + [c] + b, c) == Some((a, b))
  {
    if a != "" {
      assert (a + [c] + b)[1..] == a[1..] + [c] + b;
      SplitOnceAt(a[1..], c, b);
      assert [a[0]] + a[1..] == a;
    } else {
      assert (a + [c] + b)[1..] == b;
    }
  }

  /** Where the dash of a printed range-spec falls. */
  function Ends(spec: RangeSpec): (string, string) {
    match spec
    case FromTo(first, last) => (Print(first), Print(last))
    case From(first) => (Print(first), "")
    case Suffix(length) => ("", Print(length))
  }

  lemma RenderedParts(spec: RangeSpec)
    ensures var text := Render(spec);
      UNIT <= text && text[|UNIT|..] != "" && ',' !in text[|UNIT|..]
      && SplitOnce(text[|UNIT|..], '-') == Some(Ends(spec))
  {
    var text := Render(spec);
    var (a, b) := Ends(spec);
    assert '-' !in a && ',' !in a && ',' !in b by {
      assert AllDigits(a) && AllDigits(b);
    }
    assert text == UNIT + (a + ['-'] + b) by {
      match spec
      case FromTo(_, _) =>
      case From(_) => assert a + ['-'] + "" == a + "-";
      case Suffix(_) => assert "" + ['-'] + b == "-" + b;
    }
    assert text[|UNIT|..] == a + ['-'] + b;
    SplitOnceAt(a, '-', b);
  }

  /** A printed range-spec is answered as the standard says if and only if the number its answer
      rests on is a `u64`, or nothing is selected anyway. */
  lemma AnswersIff(spec: RangeSpec, len: nat)
    requires len <= U64_MAX
    ensures Answers(ParseRange(Some(Render(spec)), len), spec, len) <==> Readable(spec) || SelectsNothing(spec, len)
  {
    hide Render, SplitOnce, Print, AllDigits, Value;
    RenderedParts(spec);
    SelectsNothingIff(spec, len);
    match spec
    case FromTo(first, last) =>
      ParsePrint(first, U64_MAX);
      ParsePrint(last, U64_MAX);
    case From(first) => ParsePrint(first, U64_MAX);
    case Suffix(length) => ParsePrint(length, U64_MAX);
  }

  /** Positions 0 to 2^64 of a one-byte asset: the standard selects the byte, the code
      answers 416. */
  lemma WideNumeralIsRefused()
    ensures var spec := FromTo(0, U64_MAX + 1);
      Selects(spec, 1, 0) && ParseRange(Some(Render(spec)), 1) == Unsatisfiable && !Answers(Unsatisfiable, spec, 1)
  {
    var spec := FromTo(0, U64_MAX + 1);
    AnswersIff(spec, 1);
    assert Selects(spec, 1, 0);
    RenderedParts(spec);
    ParsePrint(0, U64_MAX);
    ParsePrint(U64_MAX + 1, U64_MAX);
  }

  /** The header is ignored: absent, of another unit, empty, or a list of ranges. */
  predicate Ignored(value: Option<string>) {
    value.None? || !(UNIT <= value.value) || value.value[|UNIT|..] == "" || ',' in value.value[|UNIT|..]
  }

  /** The range-spec that the texts before and after the dash spell, if they are `u64` numerals. */
  function Meaning(first: string, last: string): Option<RangeSpec> {
    if first == "" then
      (match Parse(last, U64_MAX) case None => None case Some(n) => Some(Suffix(n)))
    else
      match Parse(first, U64_MAX)
      case None => None
      case Some(a) =>
        if last == "" then Some(From(a))
        else match Parse(last, U64_MAX) case None => None case Some(b) => Some(FromTo(a, b))
  }

  /** The range-spec of a header that is not ignored. */
  function SpecOf(value: Option<string>): Option<RangeSpec>
    requires !Ignored(value)
  {
    match SplitOnce(value.value[|UNIT|..], '-')
    case None => None
    case Some((first, last)) => Meaning(first, last)
  }

  /** Whatever the header: it is ignored for the reasons given and no other; a text that is no
      range-spec is answered 416; and a range-spec is answered with exactly the positions it selects,
      which lie inside the asset, or 416 when it selects none. */
  lemma EveryHeaderIsAnswered(value: Option<string>, len: nat)
    requires len <= U64_MAX
    ensures ParseRange(value, len) == Full <==> Ignored(value)
    ensures !Ignored(value) && SpecOf(value).None? ==> ParseRange(value, len) == Unsatisfiable
    ensures !Ignored(value) && SpecOf(value).Some? ==> Answers(ParseRange(value, len), SpecOf(value).value, len)
    ensures ParseRange(value, len).Partial? ==> ParseRange(value, len).start <= ParseRange(value, len).end < len
  {
    hide Parse, SplitOnce;
    if !Ignored(value) && SpecOf(value).Some? {
      SelectsNothingIff(SpecOf(value).value, len);
    }
  }

  // ---------------------------------------------------------------- the response

  datatype Response = Response(status: nat, contentLength: Option<nat>, contentRange: Option<string>, body: seq<Byte>)

  /** The range part of `serve_embedded_asset`. `ifRange` is the answer of `If-Range`. */
  function Serve(asset: seq<Byte>, ifRange: bool, value: Option<string>, head: bool): (r: Response)
    ensures !head && r.contentLength.Some? ==> r.contentLength.value == |r.body|
    ensures !ifRange || Ignored(value) ==> r == Response(200, Some(|asset|), None, if head then [] else asset)
    ensures ifRange && !Ignored(value) ==> r.status == 206 || r.status == 416
  {
    match if ifRange then ParseRange(value, |asset|) else Full
    case Full => Response(200, Some(|asset|), None, if head then [] else asset)
    case Partial(start, end) =>
      Response(
        206, Some(end - start + 1),
        Some("bytes " + Print(start) + "-" + Print(end) + "/" + Print(|asset|)),
        if head then [] else asset[start..end + 1])
    case Unsatisfiable => Response(416, None, Some("bytes */" + Print(|asset|)), [])
  }

  /** 206 with the positions that the range-spec selects, and how long and where they are. */
  ghost predicate IsPartial(asset: seq<Byte>, spec: RangeSpec, head: bool, r: Response, start: nat, end: nat) {
    && start <= end < |asset|
    && (forall i: nat :: start <= i <= end <==> Selects(spec, |asset|, i))
    && r == Response(
      206, Some(end - start + 1), Some("bytes " + Print(start) + "-" + Print(end) + "/" + Print(|asset|)),
      if head then [] else asset[start..end + 1])
  }

  /** The answer to a range header, by what it selects: exactly the selected bytes, or 416 when it selects
      none or is no range-spec. */
  lemma ServedAsSelected(asset: seq<Byte>, value: Option<string>, head: bool)
    requires |asset| <= U64_MAX && !Ignored(value)
    ensures var r, spec := Serve(asset, true, value, head), SpecOf(value);
      if spec.Some? && exists i: nat :: Selects(spec.value, |asset|, i)
      then exists start, end :: IsPartial(asset, spec.value, head, r, start, end)
      else r == Response(416, None, Some("bytes */" + Print(|asset|)), [])
  {
    hide *;
    EveryHeaderIsAnswered(value, |asset|);
    ServeUnsatisfiable(asset, value, head);
    var spec := SpecOf(value);
    if spec.Some? {
      if ParseRange(value, |asset|).Partial? {
        ServePartial(asset, value, spec.value, head);
      } else {
        SelectedNone(ParseRange(value, |asset|), spec.value, |asset|);
      }
    }
  }

  lemma ServePartial(asset: seq<Byte>, value: Option<string>, spec: RangeSpec, head: bool)
    requires ParseRange(value, |asset|).Partial? && Answers(ParseRange(value, |asset|), spec, |asset|)
    ensures var d := ParseRange(value, |asset|);
      IsPartial(asset, spec, head, Serve(asset, true, value, head), d.start, d.end) && Selects(spec, |asset|, d.start)
  {
    hide ParseRange, Print, Selects;
  }

  lemma ServeUnsatisfiable(asset: seq<Byte>, value: Option<string>, head: bool)
    ensures ParseRange(value, |asset|).Unsatisfiable? ==>
      Serve(asset, true, value, head) == Response(416, None, Some("bytes */" + Print(|asset|)), [])
  {
    hide ParseRange, Print;
  }

  lemma SelectedNone(d: Decision, spec: RangeSpec, len: nat)
    requires !d.Partial? && Answers(d, spec, len)
    ensures forall i: nat :: !Selects(spec, len, i)
  {
  }

  /** A HEAD request gets the GET answer without its body. */
  lemma HeadLikeGet(asset: seq<Byte>, ifRange: bool, value: Option<string>)
    ensures Serve(asset, ifRange, value, true) == Serve(asset, ifRange, value, false).(body := [])
  {
  }

  /** Asking for `length` bytes from `offset` on. */
  function Fetch(asset: seq<Byte>, offset: nat, length: nat): Response
    requires length >= 1
  {
    Serve(asset, true, Some(Render(FromTo(offset, offset + length - 1))), false)
  }

  /** Asking for `lengths[0]` bytes from `offset` on, then for the next `lengths[1]`, and so on. */
  function FetchAll(asset: seq<Byte>, offset: nat, lengths: seq<nat>): (rs: seq<Response>)
    requires forall i :: 0 <= i < |lengths| ==> lengths[i] >= 1
    ensures |rs| == |lengths|
    decreases |lengths|
  {
    if lengths == [] then []
    else [Fetch(asset, offset, lengths[0])] + FetchAll(asset, offset + lengths[0], lengths[1..])
  }

  function Sum(lengths: seq<nat>): nat {
    if lengths == [] then 0 else lengths[0] + Sum(lengths[1..])
  }

  function Bodies(responses: seq<Response>): seq<Byte> {
    if responses == [] then [] else responses[0].body + Bodies(responses[1..])
  }

  predicate AllPartial(responses: seq<Response>) {
    forall i :: 0 <= i < |responses| ==> responses[i].status == 206
  }

  lemma OneMore(first: Response, rest: seq<Response>)
    ensures Bodies([]) == [] && AllPartial([])
    ensures Bodies([first] + rest) == first.body + Bodies(rest)
    ensures first.status == 206 && AllPartial(rest) ==> AllPartial([first] + rest)
  {
    assert ([first] + rest)[1..] == rest;
  }

  lemma SlicesMeet(s: seq<Byte>, i: nat, j: nat)
    requires i <= j <= |s|
    ensures s[i..j] + s[j..] == s[i..]
  {
  }

  lemma PrintedSpanParses(start: nat, end: nat, len: nat)
    requires start <= end < len <= U64_MAX
    ensures ParseRange(Some(Render(FromTo(start, end))), len) == Partial(start, end)
  {
    hide Render, SplitOnce, Print, AllDigits, Value;
    RenderedParts(FromTo(start, end));
    ParsePrint(start, U64_MAX);
    ParsePrint(end, U64_MAX);
  }

  lemma FetchedSlice(asset: seq<Byte>, offset: nat, length: nat)
    requires |asset| <= U64_MAX && length >= 1 && offset + length <= |asset|
    ensures Fetch(asset, offset, length).status == 206
    ensures Fetch(asset, offset, length).body == asset[offset..offset + length]
  {
    hide Render, ParseRange, Print;
    PrintedSpanParses(offset, offset + length - 1, |asset|);
  }

  /** However an asset is cut into consecutive spans, asking for each span gives partial responses
      whose bodies put the asset together again. */
  lemma {:induction false} SpansReassemble(asset: seq<Byte>, offset: nat, lengths: seq<nat>)
    requires |asset| <= U64_MAX
    requires forall i :: 0 <= i < |lengths| ==> lengths[i] >= 1
    requires offset + Sum(lengths) == |asset|
    ensures AllPartial(FetchAll(asset, offset, lengths))
    ensures Bodies(FetchAll(asset, offset, lengths)) == asset[offset..]
    decreases |lengths|
  {
    hide Bodies, AllPartial, Fetch;
    if lengths == [] {
      OneMore(Response(0, None, None, []), []);
      assert asset[offset..] == [];
    } else {
      var next := offset + lengths[0];
      SpansReassemble(asset, next, lengths[1..]);
      FetchedSlice(asset, offset, lengths[0]);
      OneMore(Fetch(asset, offset, lengths[0]), FetchAll(asset, next, lengths[1..]));
      SlicesMeet(asset, offset, next);
    }
  }
}
