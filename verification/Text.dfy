/** `str` helpers: trimming, case folding, prefixes. */
module Text {

  /** `char::is_whitespace`: the Unicode White_Space property. */
  predicate IsWhite(c: char) {
    || '\U{0009}' <= c <= '\U{000D}' || c == ' ' || c == '\U{0085}' || c == '\U{00A0}' || c == '\U{1680}'
    || '\U{2000}' <= c <= '\U{200A}' || c == '\U{2028}' || c == '\U{2029}' || c == '\U{202F}'
    || c == '\U{205F}' || c == '\U{3000}'
  }

  function TrimStart(s: string): string {
    if s != "" && IsWhite(s[0]) then TrimStart(s[1..]) else s
  }

  function TrimEnd(s: string): string {
    if s != "" && IsWhite(s[|s| - 1]) then TrimEnd(s[..|s| - 1]) else s
  }

  function Trim(s: string): string { TrimEnd(TrimStart(s)) }

  /** White space only. */
  predicate Blank(s: string) { forall i :: 0 <= i < |s| ==> IsWhite(s[i]) }

  /** Nothing to trim. */
  predicate Trimmed(s: string) { s != "" ==> !IsWhite(s[0]) && !IsWhite(s[|s| - 1]) }

  lemma {:induction false} BlankStart(a: string, s: string)
    requires Blank(a)
    ensures TrimStart(a + s) == TrimStart(s)
  {
    if a == "" {
      assert a + s == s;
    } else {
      assert (a + s)[1..] == a[1..] + s;
      BlankStart(a[1..], s);
    }
  }

  lemma {:induction false} BlankEnd(s: string, b: string)
    requires Blank(b)
    ensures TrimEnd(s + b) == TrimEnd(s)
  {
    if b == "" {
      assert s + b == s;
    } else {
      var t := s + b;
      assert t[..|t| - 1] == s + b[..|b| - 1];
      BlankEnd(s, b[..|b| - 1]);
    }
  }

  /** Trimming takes off the white space around a text and nothing of the text. */
  lemma TrimPadded(a: string, s: string, b: string)
    requires Blank(a) && Blank(b) && Trimmed(s)
    ensures Trim(a + s + b) == s
  {
    assert a + s + b == a + (s + b);
    BlankStart(a, s + b);
    BlankEnd(s, b);
    if s == "" {
      assert s + b == b == b + "";
      BlankStart(b, "");
    } else {
      assert (s + b)[0] == s[0];
    }
  }

  lemma TrimLeadingSpace(s: string)
    ensures Trim(" " + s) == Trim(s)
  {
    assert (" " + s)[1..] == s;
  }

  function LowerChar(c: char): char {
    if 'A' <= c <= 'Z' then c - 'A' + 'a' else c
  }

  /** `to_ascii_lowercase` */
  function Lower(s: string): (r: string)
    ensures |r| == |s|
  {
    seq(|s|, i requires 0 <= i < |s| => LowerChar(s[i]))
  }

  const UPPER := "ABCDEFGHIJKLMNOPQRSTUVWXYZ"
  const LOWER := "abcdefghijklmnopqrstuvwxyz"

  lemma Letters()
    ensures |UPPER| == |LOWER| == 26
    ensures forall i :: 0 <= i < 26 ==> UPPER[i] as int == 0x41 + i
    ensures forall i :: 0 <= i < 26 ==> LOWER[i] as int == 0x61 + i
  {
  }

  /** The 26 letters change their case and nothing else does. */
  lemma LowerTable(c: char)
    ensures |UPPER| == |LOWER| && forall i :: 0 <= i < |UPPER| ==> LowerChar(UPPER[i]) == LOWER[i]
    ensures c !in UPPER ==> LowerChar(c) == c
  {
    hide UPPER, LOWER;
    Letters();
    if 'A' <= c <= 'Z' {
      assert UPPER[c as int - 0x41] == c;
    }
  }

  /** `eq_ignore_ascii_case` */
  predicate EqIgnoreCase(a: string, b: string) { Lower(a) == Lower(b) }

  predicate StartsWith(s: string, prefix: string) { prefix <= s }
}
