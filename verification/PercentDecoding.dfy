/** Percent decoding of route parameters (arvik-router/src/router.rs), and the plain decoding that
    request paths of static files go through. */
module PercentDecoding {
  import opened Utf8
  import opened Wrappers
  import opened Sequences

  /** Bytes whose escapes a route parameter keeps: they would change structure or carry control
      characters. */
  const KEPT: set<Byte> := {SLASH, BACKSLASH, NUL, LF, CR}

  function HexNibble(b: Byte): (n: Option<Byte>)
    ensures n.Some? ==> n.value < 16
  {
    if 0x30 <= b <= 0x39 then Some(b - 0x30)
    else if 0x61 <= b <= 0x66 then Some(b - 0x61 + 10)
    else if 0x41 <= b <= 0x46 then Some(b - 0x41 + 10)
    else None
  }

  predicate IsHex(b: Byte) { HexNibble(b).Some? }

  /** `s` starts with a percent sign and two hexadecimal digits. */
  predicate StartsEscape(s: seq<Byte>) { |s| >= 3 && s[0] == PERCENT && IsHex(s[1]) && IsHex(s[2]) }

  function EscapedByte(s: seq<Byte>): Byte
    requires StartsEscape(s)
  {
    16 * HexNibble(s[1]).value + HexNibble(s[2]).value
  }

  /** One escape or one literal byte, decoded unless kept, and how much of `s` it took. */
  function Unit(s: seq<Byte>, keep: set<Byte>): (seq<Byte>, nat)
    requires s != []
  {
    if StartsEscape(s) then
      (if EscapedByte(s) in keep then s[..3] else [EscapedByte(s)], 3)
    else ([s[0]], 1)
  }

  function Decode(s: seq<Byte>, keep: set<Byte>): seq<Byte> {
    if s == [] then [] else var (out, n) := Unit(s, keep); out + Decode(s[n..], keep)
  }

  /** What a handler is given for the captured text `input`. */
  function Decoded(input: seq<Byte>): seq<Byte> {
    var out := Decode(input, KEPT);
    if Valid(out) then out else input
  }

  lemma DecodeUnit(s: seq<Byte>, keep: set<Byte>)
    requires s != []
    ensures 1 <= Unit(s, keep).1 <= |s|
    ensures Decode(s, keep) == Unit(s, keep).0 + Decode(s[Unit(s, keep).1..], keep)
  {
  }

  /** Where the decoding stands: `out` is written, `input` is read up to `i`. */
  ghost predicate Resumes(input: seq<Byte>, i: nat, out: seq<Byte>)
    requires i <= |input|
  {
    Decode(input, KEPT) == out + Decode(input[i..], KEPT)
  }

  lemma ResumesAtEnds(input: seq<Byte>)
    ensures Resumes(input, 0, [])
    ensures forall out :: Resumes(input, |input|, out) ==> out == Decode(input, KEPT)
  {
    assert input[0..] == input && [] + Decode(input, KEPT) == Decode(input, KEPT);
    forall out | Resumes(input, |input|, out)
      ensures out == Decode(input, KEPT)
    {
      assert out + [] == out;
    }
  }

  lemma UnitAt(input: seq<Byte>, i: nat)
    requires i < |input|
    ensures Unit(input[i..], KEPT) ==
            if input[i] == PERCENT && i + 2 < |input|
               && HexNibble(input[i + 1]).Some? && HexNibble(input[i + 2]).Some? then
              var decoded := 16 * HexNibble(input[i + 1]).value + HexNibble(input[i + 2]).value;
              (if decoded in KEPT then input[i..i + 3] else [decoded], 3)
            else ([input[i]], 1)
  {
    if i + 2 < |input| {
      assert input[i..][..3] == input[i..i + 3];
    }
  }

  lemma ResumesAfter(input: seq<Byte>, i: nat, out: seq<Byte>, part: seq<Byte>, n: nat)
    requires i < |input| && i + n <= |input|
    requires Unit(input[i..], KEPT) == (part, n)
    requires Resumes(input, i, out)
    ensures Resumes(input, i + n, out + part)
  {
    hide Unit;
    assert input[i..][n..] == input[i + n..];
    Associative(out, part, Decode(input[i + n..], KEPT));
  }

  lemma {:induction false} NothingToDecode(s: seq<Byte>, keep: set<Byte>)
    requires PERCENT !in s
    ensures Decode(s, keep) == s
  {
    if s != [] {
      assert s == [s[0]] + s[1..];
      NothingToDecode(s[1..], keep);
    }
  }

  lemma UnitCases(s: seq<Byte>, keep: set<Byte>)
    requires s != []
    ensures !StartsEscape(s) ==> Unit(s, keep) == ([s[0]], 1)
    ensures StartsEscape(s) ==> |s| >= 3 && Unit(s, {}) == ([EscapedByte(s)], 3)
  {
  }

  /** A text in which no escape starts is left alone, malformed escapes included. */
  lemma {:induction false} MalformedStays(s: seq<Byte>, keep: set<Byte>)
    requires forall i :: 0 <= i < |s| ==> !StartsEscape(s[i..])
    ensures Decode(s, keep) == s
  {
    hide StartsEscape, Unit;
    if s == [] {
      NothingToDecode(s, keep);
    } else {
      var rest := s[1..];
      assert s[0..] == s == [s[0]] + rest;
      UnitCases(s, keep);
      DecodeUnit(s, keep);
      forall i | 0 <= i < |rest|
        ensures !StartsEscape(rest[i..])
      {
        assert rest[i..] == s[i + 1..];
      }
      MalformedStays(rest, keep);
    }
  }

  /** An escape that is decoded makes the text shorter. */
  lemma {:induction false} EscapesShorten(s: seq<Byte>)
    ensures |Decode(s, {})| <= |s|
    ensures (exists i :: 0 <= i < |s| && StartsEscape(s[i..])) ==> |Decode(s, {})| < |s|
  {
    hide StartsEscape, Unit, Decode;
    if s == [] {
      NothingToDecode(s, {});
    } else {
      UnitCases(s, {});
      DecodeUnit(s, {});
      assert s[0..] == s;
      if StartsEscape(s) {
        EscapesShorten(s[3..]);
      } else {
        var rest := s[1..];
        EscapesShorten(rest);
        if i :| 0 <= i < |s| && StartsEscape(s[i..]) {
          assert i > 0 && rest[i - 1..] == s[i..];
        }
      }
    }
  }

  /** Plain decoding changes exactly the texts in which an escape starts somewhere. */
  lemma DecodeChangesIff(s: seq<Byte>)
    ensures Decode(s, {}) != s <==> exists i :: 0 <= i < |s| && StartsEscape(s[i..])
  {
    hide StartsEscape, Decode;
    EscapesShorten(s);
    if !(exists i :: 0 <= i < |s| && StartsEscape(s[i..])) {
      MalformedStays(s, {});
    }
  }

  lemma KeptBytes(b: Byte)
    ensures b in KEPT <==> b == SLASH || b == BACKSLASH || b == NUL || b == LF || b == CR
  {
  }

  lemma DecodedIs(input: seq<Byte>)
    ensures Decoded(input) == if Valid(Decode(input, KEPT)) then Decode(input, KEPT) else input
  {
  }

  /** `percent_decode` */
  method PercentDecode(input: seq<Byte>) returns (r: seq<Byte>)
    requires Valid(input)
    ensures r == Decoded(input) && Valid(r)
  {
    hide *;
    DecodedIs(input);
    if PERCENT !in input {
      NothingToDecode(input, KEPT);
      return input;
    }
    var out: seq<Byte> := [];
    var i := 0;
    ResumesAtEnds(input);
    while i < |input|
      invariant 0 <= i <= |input|
      invariant Resumes(input, i, out)
    {
      UnitAt(input, i);
      if input[i] == PERCENT && i + 2 < |input| {
        var hi, lo := HexNibble(input[i + 1]), HexNibble(input[i + 2]);
        if hi.Some? && lo.Some? {
          var decoded := 16 * hi.value + lo.value;
          KeptBytes(decoded);
          if decoded == SLASH || decoded == BACKSLASH || decoded == NUL || decoded == LF || decoded == CR {
            ResumesAfter(input, i, out, input[i..i + 3], 3);
            out := out + input[i..i + 3];
          } else {
            ResumesAfter(input, i, out, [decoded], 3);
            out := out + [decoded];
          }
          i := i + 3;
          continue;
        }
      }
      ResumesAfter(input, i, out, [input[i]], 1);
      out := out + [input[i]];
      i := i + 1;
    }
    return if Valid(out) then out else input;
  }

  // ---------------------------------------------------------------- structure is kept

  /** The kept bytes of `s`, in order. */
  function Structure(s: seq<Byte>): seq<Byte> {
    if s == [] then [] else OnlyKept(s[0]) + Structure(s[1..])
  }

  function OnlyKept(b: Byte): seq<Byte> {
    if b in KEPT then [b] else []
  }

  lemma StructureCons(b: Byte, s: seq<Byte>)
    ensures Structure([]) == []
    ensures Structure([b] + s) == OnlyKept(b) + Structure(s)
  {
    assert ([b] + s)[1..] == s;
  }

  lemma {:induction false} StructureAppend(a: seq<Byte>, b: seq<Byte>)
    ensures Structure(a + b) == Structure(a) + Structure(b)
  {
    hide *;
    if a == [] {
      StructureCons(0, []);
      assert a + b == b && [] + Structure(b) == Structure(b);
    } else {
      var x, rest := a[0], a[1..];
      assert a == [x] + rest;
      Associative([x], rest, b);
      StructureAppend(rest, b);
      StructureCons(x, rest + b);
      StructureCons(x, rest);
      Associative(OnlyKept(x), Structure(rest), Structure(b));
    }
  }

  lemma {:induction false} NothingKept(s: seq<Byte>)
    requires forall b :: b in s ==> b !in KEPT
    ensures Structure(s) == []
  {
    if s != [] {
      NothingKept(s[1..]);
    }
  }

  lemma StructureOfUnit(s: seq<Byte>)
    requires s != []
    ensures Structure(Unit(s, KEPT).0) == Structure(s[..Unit(s, KEPT).1])
  {
    assert s[..1] == [s[0]];
    if StartsEscape(s) {
      assert s[..3] == [s[0], s[1], s[2]];
      NothingKept(s[..3]);
      if EscapedByte(s) !in KEPT {
        NothingKept([EscapedByte(s)]);
      }
    }
  }

  lemma {:induction false} DecodeKeepsStructure(s: seq<Byte>)
    ensures Structure(Decode(s, KEPT)) == Structure(s)
  {
    hide *;
    if s == [] {
      NothingToDecode(s, KEPT);
    } else {
      var (out, n) := Unit(s, KEPT);
      DecodeUnit(s, KEPT);
      StructureOfUnit(s);
      DecodeKeepsStructure(s[n..]);
      StructureAppend(out, Decode(s[n..], KEPT));
      StructureAppend(s[..n], s[n..]);
      assert s == s[..n] + s[n..];
    }
  }

  lemma CountAppend(s: seq<Byte>, t: seq<Byte>, b: Byte)
    ensures multiset(s + t)[b] == multiset(s)[b] + multiset(t)[b]
  {
    assert multiset(s + t) == multiset(s) + multiset(t);
  }

  lemma {:induction false} StructureCounts(s: seq<Byte>, b: Byte)
    requires b in KEPT
    ensures multiset(Structure(s))[b] == multiset(s)[b]
  {
    hide Structure;
    if s == [] {
      StructureCons(b, []);
    } else {
      var x, rest := s[0], s[1..];
      StructureCounts(rest, b);
      StructureCons(x, rest);
      assert s == [x] + rest;
      CountAppend(OnlyKept(x), Structure(rest), b);
      CountAppend([x], rest, b);
      assert multiset(OnlyKept(x))[b] == multiset([x])[b];
    }
  }

  /** A parameter's separators and control bytes are those written literally in the URL: the same
      ones, in the same order, and so as many of each. */
  lemma DecodingKeepsStructure(input: seq<Byte>)
    ensures Structure(Decoded(input)) == Structure(input)
    ensures forall b :: b in KEPT ==> multiset(Decoded(input))[b] == multiset(input)[b]
    ensures forall b :: b in [SLASH, BACKSLASH, NUL, LF, CR] ==> multiset(Decoded(input))[b] == multiset(input)[b]
  {
    DecodeKeepsStructure(input);
    forall b | b in KEPT
      ensures multiset(Decoded(input))[b] == multiset(input)[b]
    {
      StructureCounts(Decoded(input), b);
      StructureCounts(input, b);
    }
  }

  // ---------------------------------------------------------------- encodings are inverted

  /** How an encoder writes one byte: as it is, or as an escape with digits of either case. */
  datatype Style = Literal | Escaped(upperHigh: bool, upperLow: bool)

  function HexDigit(n: Byte, upper: bool): (b: Byte)
    requires n < 16
    ensures HexNibble(b) == Some(n)
  {
    if n < 10 then 0x30 + n else (if upper then 0x41 else 0x61) + (n - 10)
  }

  /** The hexadecimal digits are the digits of the encoders, of either case, and no others. */
  lemma HexDigitsOnly(b: Byte)
    ensures IsHex(b) <==> exists n: Byte, upper :: n < 16 && b == HexDigit(n, upper)
  {
    if IsHex(b) {
      assert b == HexDigit(HexNibble(b).value, true) || b == HexDigit(HexNibble(b).value, false);
    }
  }

  function EncodeByte(b: Byte, style: Style): (r: seq<Byte>)
    ensures style.Escaped? ==> StartsEscape(r) && |r| == 3 && EscapedByte(r) == b
  {
    match style
    case Literal => [b]
    case Escaped(high, low) => [PERCENT, HexDigit(b / 16, high), HexDigit(b % 16, low)]
  }

  /** Any percent-encoding of `text`: each byte in a style of its own. */
  function Encode(text: seq<Byte>, styles: seq<Style>): seq<Byte>
    requires |styles| == |text|
  {
    if text == [] then [] else EncodeByte(text[0], styles[0]) + Encode(text[1..], styles[1..])
  }

  /** At least the percent signs are escaped. */
  predicate PercentsEscaped(text: seq<Byte>, styles: seq<Style>)
    requires |styles| == |text|
  {
    forall i :: 0 <= i < |text| && text[i] == PERCENT ==> styles[i].Escaped?
  }

  /** No byte of `keep` is escaped. */
  predicate KeptLiteral(text: seq<Byte>, styles: seq<Style>, keep: set<Byte>)
    requires |styles| == |text|
  {
    forall i :: 0 <= i < |text| && text[i] in keep ==> styles[i].Literal?
  }

  lemma UnitOfEncoded(b: Byte, style: Style, rest: seq<Byte>, keep: set<Byte>)
    requires b == PERCENT ==> style.Escaped?
    ensures var s := EncodeByte(b, style) + rest;
      s != [] && s[Unit(s, keep).1..] == rest
      && Unit(s, keep).0 == if style.Escaped? && b in keep then EncodeByte(b, style) else [b]
  {
    var s := EncodeByte(b, style) + rest;
    if style.Escaped? {
      assert s[0] == EncodeByte(b, style)[0] && s[1] == EncodeByte(b, style)[1] && s[2] == EncodeByte(b, style)[2];
      assert s[..3] == EncodeByte(b, style) && s[3..] == rest;
    } else {
      assert s[1..] == rest;
    }
  }

  /** Decoding undoes an encoding with its percent signs escaped if and only if no kept byte was
      escaped; the escapes it keeps make the result longer than the text. */
  lemma {:induction false} DecodeEncode(text: seq<Byte>, styles: seq<Style>, keep: set<Byte>)
    requires |styles| == |text| && PercentsEscaped(text, styles)
    ensures Decode(Encode(text, styles), keep) == text <==> KeptLiteral(text, styles, keep)
    ensures |Decode(Encode(text, styles), keep)| >= |text|
    ensures !KeptLiteral(text, styles, keep) ==> |Decode(Encode(text, styles), keep)| > |text|
  {
    if text != [] {
      var rest := Encode(text[1..], styles[1..]);
      DecodeEncode(text[1..], styles[1..], keep);
      UnitOfEncoded(text[0], styles[0], rest, keep);
      var s := Encode(text, styles);
      var out := Unit(s, keep).0;
      assert Decode(s, keep) == out + Decode(rest, keep);
      KeptLiteralSplits(text, styles, keep);
      hide Decode, Encode, KeptLiteral, Unit;
      assert text == [text[0]] + text[1..];
    }
  }

  lemma KeptLiteralSplits(text: seq<Byte>, styles: seq<Style>, keep: set<Byte>)
    requires |styles| == |text| && text != []
    ensures KeptLiteral(text, styles, keep)
       <==> (text[0] in keep ==> styles[0].Literal?) && KeptLiteral(text[1..], styles[1..], keep)
  {
    var t, y := text[1..], styles[1..];
    if (text[0] in keep ==> styles[0].Literal?) && KeptLiteral(t, y, keep) {
      forall i | 0 <= i < |text| && text[i] in keep
        ensures styles[i].Literal?
      {
        if i > 0 { assert t[i - 1] == text[i] && y[i - 1] == styles[i]; }
      }
    }
    if KeptLiteral(text, styles, keep) {
      forall i | 0 <= i < |t| && t[i] in keep
        ensures y[i].Literal?
      {
        assert t[i] == text[i + 1] && y[i] == styles[i + 1];
      }
    }
  }

  lemma {:induction false} EncodedLength(text: seq<Byte>, styles: seq<Style>)
    requires |styles| == |text|
    ensures |Encode(text, styles)| >= |text|
    ensures (exists i :: 0 <= i < |text| && styles[i].Escaped?) ==> |Encode(text, styles)| > |text|
  {
    if text != [] {
      EncodedLength(text[1..], styles[1..]);
      if i :| 0 <= i < |text| && styles[i].Escaped? {
        if i > 0 { assert styles[1..][i - 1].Escaped?; }
      }
    }
  }

  /** The handler gets back the text that was encoded, whatever the encoder escaped beyond its
      percent signs, if and only if it left the kept bytes alone. */
  lemma DecodingInvertsEncoding(text: seq<Byte>, styles: seq<Style>)
    requires Valid(text)
    requires |styles| == |text| && PercentsEscaped(text, styles)
    ensures Decoded(Encode(text, styles)) == text <==> KeptLiteral(text, styles, KEPT)
  {
    DecodeEncode(text, styles, KEPT);
    EncodedLength(text, styles);
  }

  /** Keeping escapes merges texts: `%2F` spells a slash and `%252F` spells the text `%2F`, as plain
      decoding tells, yet both reach the handler as `%2F`. */
  lemma KeptEscapesCollide()
    ensures var a: seq<Byte> := [0x25, 0x32, 0x46]; var b: seq<Byte> := [0x25, 0x32, 0x35, 0x32, 0x46];
      && Decode(a, {}) == [SLASH] && Decode(b, {}) == a
      && Decoded(a) == Decoded(b) == a
  {
    var a: seq<Byte> := [0x25, 0x32, 0x46];
    var b: seq<Byte> := [0x25, 0x32, 0x35, 0x32, 0x46];
    assert a[3..] == [] && a[..3] == a && EscapedByte(a) == SLASH;
    assert Decode(a, KEPT) == a + Decode([], KEPT);
    assert EscapedByte(b) == PERCENT && b[3..] == [0x32, 0x46];
    NothingToDecode(b[3..], KEPT);
    assert Decode(b, KEPT) == [PERCENT] + b[3..] == a;
    AsciiIsValid(a);
    assert Decode(a, {}) == [SLASH] + Decode([], {});
    NothingToDecode(b[3..], {});
    assert Decode(b, {}) == [PERCENT] + b[3..];
  }
}
