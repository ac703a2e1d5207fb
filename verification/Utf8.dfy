/** Bytes, and which byte sequences are a `str`. */
module Utf8 {

  type Byte = x: int | 0 <= x < 256

  const SLASH: Byte := 0x2F
  const BACKSLASH: Byte := 0x5C
  const PERCENT: Byte := 0x25
  const DOT: Byte := 0x2E
  const NUL: Byte := 0
  const LF: Byte := 0x0A
  const CR: Byte := 0x0D

  /** How far into a character a reader is. The four named after lead bytes restrict the byte that
      comes next. */
  datatype State = Start | One | Two | Three | AfterE0 | AfterED | AfterF0 | AfterF4 | Bad

  /** The grammar of section 4 of RFC 3629, as an automaton. */
  function Next(state: State, b: Byte): State {
    match state
    case Start =>
      if b <= 0x7F then Start
      else if 0xC2 <= b <= 0xDF then One
      else if b == 0xE0 then AfterE0
      else if b == 0xED then AfterED
      else if 0xE1 <= b <= 0xEF then Two
      else if b == 0xF0 then AfterF0
      else if 0xF1 <= b <= 0xF3 then Three
      else if b == 0xF4 then AfterF4
      else Bad
    case One => if 0x80 <= b <= 0xBF then Start else Bad
    case Two => if 0x80 <= b <= 0xBF then One else Bad
    case Three => if 0x80 <= b <= 0xBF then Two else Bad
    case AfterE0 => if 0xA0 <= b <= 0xBF then One else Bad
    case AfterED => if 0x80 <= b <= 0x9F then One else Bad
    case AfterF0 => if 0x90 <= b <= 0xBF then Two else Bad
    case AfterF4 => if 0x80 <= b <= 0x8F then Two else Bad
    case Bad => Bad
  }

  function Run(state: State, s: seq<Byte>): State
    decreases |s|
  {
    if s == [] then state else Run(Next(state, s[0]), s[1..])
  }

  /** `String::from_utf8(s).is_ok()` */
  predicate Valid(s: seq<Byte>) { Run(Start, s) == Start }

  lemma {:induction false} RunAppend(state: State, a: seq<Byte>, b: seq<Byte>)
    ensures Run(state, a + b) == Run(Run(state, a), b)
    decreases |a|
  {
    if a == [] {
      assert a + b == b;
    } else {
      RunAppend(Next(state, a[0]), a[1..], b);
      assert (a + b)[1..] == a[1..] + b;
    }
  }

  lemma {:induction false} BadStays(s: seq<Byte>)
    ensures Run(Bad, s) == Bad
  {
    if s != [] {
      BadStays(s[1..]);
    }
  }

  lemma {:induction false} AsciiIsValid(s: seq<Byte>)
    requires forall i :: 0 <= i < |s| ==> s[i] < 0x80
    ensures Valid(s)
  {
    if s != [] {
      AsciiIsValid(s[1..]);
    }
  }

  /** An ASCII byte always stands between whole characters. */
  lemma ValidAroundAscii(a: seq<Byte>, x: Byte, b: seq<Byte>)
    requires x < 0x80
    ensures Valid(a + [x] + b) <==> Valid(a) && Valid(b)
  {
    RunAppend(Start, a, [x] + b);
    assert a + [x] + b == a + ([x] + b);
    assert ([x] + b)[1..] == b;
    BadStays(b);
  }

  // ---------------------------------------------------------------- against the encoder

  /** A Unicode scalar value: a code point that is not a surrogate. */
  type Scalar = x: int | 0 <= x < 0xD800 || 0xE000 <= x < 0x11_0000

  /** Section 3 of RFC 3629. */
  function EncodeChar(c: Scalar): seq<Byte> {
    if c < 0x80 then [c]
    else if c < 0x800 then [0xC0 + c / 0x40, 0x80 + c % 0x40]
    else if c < 0x1_0000 then [0xE0 + c / 0x40 / 0x40, 0x80 + c / 0x40 % 0x40, 0x80 + c % 0x40]
    else [0xF0 + c / 0x40 / 0x40 / 0x40, 0x80 + c / 0x40 / 0x40 % 0x40, 0x80 + c / 0x40 % 0x40, 0x80 + c % 0x40]
  }

  function EncodeAll(cs: seq<Scalar>): seq<Byte> {
    if cs == [] then [] else EncodeChar(cs[0]) + EncodeAll(cs[1..])
  }

  lemma RunOne(state: State, b: Byte)
    ensures Run(state, [b]) == Next(state, b)
  {
    assert [b][1..] == [];
  }

  lemma RunCons(state: State, b: Byte, s: seq<Byte>)
    ensures Run(state, [b] + s) == Run(Next(state, b), s)
  {
    RunAppend(state, [b], s);
    RunOne(state, b);
  }

  lemma RunTwo(a: Byte, b: Byte)
    ensures Run(Start, [a, b]) == Next(Next(Start, a), b)
  {
    RunCons(Start, a, [b]);
    RunOne(Next(Start, a), b);
    assert [a] + [b] == [a, b];
  }

  lemma RunThree(a: Byte, b: Byte, c: Byte)
    ensures Run(Start, [a, b, c]) == Next(Next(Next(Start, a), b), c)
  {
    RunTwo(a, b);
    RunAppend(Start, [a, b], [c]);
    RunOne(Run(Start, [a, b]), c);
    assert [a, b] + [c] == [a, b, c];
  }

  lemma RunFour(a: Byte, b: Byte, c: Byte, d: Byte)
    ensures Run(Start, [a, b, c, d]) == Next(Next(Next(Next(Start, a), b), c), d)
  {
    RunThree(a, b, c);
    RunAppend(Start, [a, b, c], [d]);
    RunOne(Run(Start, [a, b, c]), d);
    assert [a, b, c] + [d] == [a, b, c, d];
  }

  lemma CharIsValid(c: Scalar)
    ensures Run(Start, EncodeChar(c)) == Start
  {
    hide Run;
    var s := EncodeChar(c);
    if c < 0x80 {
      RunOne(Start, s[0]);
    } else if c < 0x800 {
      RunTwo(s[0], s[1]);
    } else if c < 0x1_0000 {
      RunThree(s[0], s[1], s[2]);
    } else {
      RunFour(s[0], s[1], s[2], s[3]);
    }
  }

  lemma {:induction false} EncodedIsValid(cs: seq<Scalar>)
    ensures Valid(EncodeAll(cs))
  {
    if cs != [] {
      EncodedIsValid(cs[1..]);
      CharIsValid(cs[0]);
      RunAppend(Start, EncodeChar(cs[0]), EncodeAll(cs[1..]));
    }
  }

  /** Reading stops nowhere but at the end of a character. */
  lemma MoreToCome(state: State, s: seq<Byte>)
    requires Run(state, s) == Start && state != Start
    ensures s != [] && Next(state, s[0]) != Bad && Run(Next(state, s[0]), s[1..]) == Start
  {
    if s != [] {
      BadStays(s[1..]);
    }
  }

  /** Six bits at a time. */
  lemma SixBits(high: int, low: int)
    requires 0 <= low < 0x40
    ensures (high * 0x40 + low) / 0x40 == high && (high * 0x40 + low) % 0x40 == low
  {
  }

  lemma TwoBytes(a: Byte, b: Byte) returns (c: Scalar)
    requires Next(Start, a) != Start && Next(Next(Start, a), b) == Start
    ensures EncodeChar(c) == [a, b]
  {
    var x: int, y: int := a, b;
    SixBits(x - 0xC0, y - 0x80);
    c := (x - 0xC0) * 0x40 + (y - 0x80);
  }

  lemma ThreeBytes(a: Byte, b: Byte, d: Byte) returns (c: Scalar)
    requires Next(Start, a) != Start && Next(Next(Start, a), b) != Start && Next(Next(Next(Start, a), b), d) == Start
    ensures EncodeChar(c) == [a, b, d]
  {
    var x: int, y: int, z: int := a, b, d;
    var high := (x - 0xE0) * 0x40 + (y - 0x80);
    SixBits(x - 0xE0, y - 0x80);
    SixBits(high, z - 0x80);
    c := high * 0x40 + (z - 0x80);
  }

  lemma FourBytes(a: Byte, b: Byte, d: Byte, e: Byte) returns (c: Scalar)
    requires Next(Next(Start, a), b) != Start && Next(Next(Next(Start, a), b), d) != Start
    requires Next(Next(Next(Next(Start, a), b), d), e) == Start && Next(Start, a) != Start
    ensures EncodeChar(c) == [a, b, d, e]
  {
    var x: int, y: int, z: int, w: int := a, b, d, e;
    var high := (x - 0xF0) * 0x40 + (y - 0x80);
    var middle := high * 0x40 + (z - 0x80);
    SixBits(x - 0xF0, y - 0x80);
    SixBits(high, z - 0x80);
    SixBits(middle, w - 0x80);
    c := middle * 0x40 + (w - 0x80);
  }

  /** A valid text that is not empty starts with the encoding of a scalar value. */
  lemma FirstChar(s: seq<Byte>) returns (c: Scalar, n: nat)
    requires Valid(s) && s != []
    ensures 1 <= n <= |s| && s[..n] == EncodeChar(c) && Valid(s[n..])
  {
    BadStays(s[1..]);
    hide Run;
    var first := Next(Start, s[0]);
    assert Run(first, s[1..]) == Start && first != Bad by { RunHead(s); }
    if first == Start {
      c, n := s[0], 1;
    } else {
      MoreToCome(first, s[1..]);
      var second := Next(first, s[1]);
      if second == Start {
        c := TwoBytes(s[0], s[1]);
        n := 2;
        assert s[..2] == [s[0], s[1]];
      } else {
        assert s[1..][1..] == s[2..];
        MoreToCome(second, s[2..]);
        var third := Next(second, s[2]);
        if third == Start {
          c := ThreeBytes(s[0], s[1], s[2]);
          n := 3;
          assert s[..3] == [s[0], s[1], s[2]];
        } else {
          assert s[2..][1..] == s[3..];
          MoreToCome(third, s[3..]);
          c := FourBytes(s[0], s[1], s[2], s[3]);
          n := 4;
          assert s[..4] == [s[0], s[1], s[2], s[3]];
          assert s[3..][1..] == s[4..];
        }
      }
    }
  }

  lemma RunHead(s: seq<Byte>)
    requires Valid(s) && s != []
    ensures Run(Next(Start, s[0]), s[1..]) == Start && Next(Start, s[0]) != Bad
  {
    BadStays(s[1..]);
  }

  /** The valid byte sequences are exactly the encodings of texts. */
  lemma {:induction false} ValidIff(s: seq<Byte>)
    ensures Valid(s) <==> exists cs :: s == EncodeAll(cs)
    decreases |s|
  {
    hide Valid, EncodeAll;
    if Valid(s) {
      EncodeNothing();
      if s != [] {
        var c, n := FirstChar(s);
        ValidIff(s[n..]);
        var rest :| s[n..] == EncodeAll(rest);
        EncodeMore(c, rest);
        assert s == s[..n] + s[n..];
      }
    }
    if cs :| s == EncodeAll(cs) {
      EncodedIsValid(cs);
    }
  }

  lemma EncodeNothing()
    ensures EncodeAll([]) == []
  {
  }

  lemma EncodeMore(c: Scalar, rest: seq<Scalar>)
    ensures EncodeAll([c] + rest) == EncodeChar(c) + EncodeAll(rest)
  {
    assert ([c] + rest)[1..] == rest;
  }
}
