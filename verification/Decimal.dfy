/** Decimal numerals: `itoa` / `to_string` on the way out, `str::parse` on the way in. */
module Decimal {
  import opened Wrappers

  const U64_MAX: nat := 0xFFFF_FFFF_FFFF_FFFF

  predicate IsDigit(c: char) { '0' <= c <= '9' }

  function DigitChar(d: nat): (c: char)
    requires d < 10
    ensures IsDigit(c)
  {
    '0' + d as char
  }

  function DigitValue(c: char): (d: nat)
    requires IsDigit(c)
    ensures d < 10
  {
    c as nat - '0' as nat
  }

  predicate AllDigits(s: string) { forall i :: 0 <= i < |s| ==> IsDigit(s[i]) }

  function Print(n: nat): (s: string)
    ensures s != [] && AllDigits(s)
  {
    if n < 10 then [DigitChar(n)] else Print(n / 10) + [DigitChar(n % 10)]
  }

  function Value(s: string): nat
    requires AllDigits(s)
  {
    if s == [] then 0 else 10 * Value(s[..|s| - 1]) + DigitValue(s[|s| - 1])
  }

  /** `s.parse::<uN>()` where `max` is the type's largest value: an optional plus sign, at least
      one digit, nothing else, and no overflow. */
  function Parse(s: string, max: nat): (r: Option<nat>)
    ensures r.Some? ==> r.value <= max
  {
    var digits := if s != [] && s[0] == '+' then s[1..] else s;
    if digits != [] && AllDigits(digits) && Value(digits) <= max then Some(Value(digits)) else None
  }

  lemma {:induction false} ValuePrint(n: nat)
    ensures Value(Print(n)) == n
  {
    if n >= 10 {
      ValuePrint(n / 10);
      assert Print(n)[..|Print(n)| - 1] == Print(n / 10);
    } else {
      assert Print(n)[..0] == [];
    }
  }

  lemma ParsePrint(n: nat, max: nat)
    ensures Parse(Print(n), max) == if n <= max then Some(n) else None
  {
    ValuePrint(n);
    assert IsDigit(Print(n)[0]);
  }

  function Zeros(k: nat): (s: string)
    ensures |s| == k && AllDigits(s)
  {
    if k == 0 then "" else Zeros(k - 1) + "0"
  }

  /** A numeral as people write it: perhaps a plus sign, perhaps leading zeros. */
  function Numeral(plus: bool, zeros: nat, n: nat): string { (if plus then "+" else "") + (Zeros(zeros) + Print(n)) }

  lemma ValueSnoc(s: string, c: char)
    requires AllDigits(s) && IsDigit(c)
    ensures AllDigits(s + [c]) && Value(s + [c]) == 10 * Value(s) + DigitValue(c)
  {
    assert (s + [c])[..|s|] == s;
  }

  lemma {:induction false} ValueZeros(k: nat)
    ensures Value(Zeros(k)) == 0
  {
    if k > 0 {
      ValueZeros(k - 1);
      ValueSnoc(Zeros(k - 1), '0');
    }
  }

  lemma PrintDigits(n: nat)
    ensures Print(n) == if n < 10 then [DigitChar(n)] else Print(n / 10) + [DigitChar(n % 10)]
    ensures DigitValue(DigitChar(n % 10)) == n % 10
  {
  }

  /** Leading zeros do not count. */
  lemma {:induction false} ValuePadded(k: nat, n: nat)
    ensures Value(Zeros(k) + Print(n)) == n
  {
    hide Value, Zeros, Print, DigitChar, DigitValue;
    PrintDigits(n);
    if n < 10 {
      ValueZeros(k);
      ValueSnoc(Zeros(k), DigitChar(n));
      assert n % 10 == n;
    } else {
      ValuePadded(k, n / 10);
      ValueSnoc(Zeros(k) + Print(n / 10), DigitChar(n % 10));
      assert Zeros(k) + Print(n) == Zeros(k) + Print(n / 10) + [DigitChar(n % 10)];
      assert 10 * (n / 10) + n % 10 == n;
    }
  }

  lemma DigitOfValue(c: char)
    requires IsDigit(c)
    ensures DigitChar(DigitValue(c)) == c
  {
  }

  /** Digits are leading zeros and the print of their value. */
  lemma {:induction false} DigitsPrint(s: string) returns (zeros: nat)
    requires s != [] && AllDigits(s)
    ensures s == Zeros(zeros) + Print(Value(s))
  {
    var before, last := s[..|s| - 1], s[|s| - 1];
    assert s == before + [last];
    ValueSnoc(before, last);
    PrintDigits(Value(s));
    DigitOfValue(last);
    if before == [] {
      zeros := 0;
    } else {
      zeros := DigitsPrint(before);
      if Value(before) == 0 {
        assert before == Zeros(zeros) + "0" == Zeros(zeros + 1);
        zeros := zeros + 1;
      } else {
        LastDigit(Value(before), DigitValue(last));
        assert Print(Value(s)) == Print(Value(before)) + [last];
      }
    }
  }

  lemma LastDigit(n: nat, d: nat)
    requires d < 10
    ensures (10 * n + d) / 10 == n && (10 * n + d) % 10 == d
  {
  }

  lemma ParseDigits(s: string, max: nat)
    requires s != "" && AllDigits(s)
    ensures Parse(s, max) == Parse("+" + s, max) == if Value(s) <= max then Some(Value(s)) else None
  {
    hide Value;
    assert IsDigit(s[0]) && ("+" + s)[1..] == s;
  }

  /** Exactly the numerals of numbers up to `max` parse, and to their numbers. */
  lemma ParseIff(s: string, max: nat, n: nat)
    ensures Parse(s, max) == Some(n) <==> n <= max && exists plus, zeros :: s == Numeral(plus, zeros, n)
  {
    hide Value, Zeros, Print;
    if Parse(s, max) == Some(n) {
      var plus := s[0] == '+';
      var digits := if plus then s[1..] else s;
      var zeros := DigitsPrint(digits);
      assert s == Numeral(plus, zeros, n);
    }
    if plus, zeros :| s == Numeral(plus, zeros, n) {
      var digits := Zeros(zeros) + Print(n);
      ValuePadded(zeros, n);
      ParseDigits(digits, max);
      assert "" + digits == digits;
    }
  }

  function Pow10(k: nat): (p: nat)
    ensures p >= 1
  {
    if k == 0 then 1 else 10 * Pow10(k - 1)
  }

  lemma {:induction false} PrintLength(n: nat, k: nat)
    requires k >= 1 && n < Pow10(k)
    ensures |Print(n)| <= k
  {
    if n >= 10 {
      assert Pow10(1) == 10;
      PrintLength(n / 10, k - 1);
    }
  }

  /** The longest `u64` numeral has 20 digits. */
  lemma PrintU64Length(n: nat)
    requires n <= U64_MAX
    ensures |Print(n)| <= 20
  {
    assert Pow10(5) == 100_000;
    assert Pow10(10) == 10_000_000_000 by { assert Pow10(8) == 100_000_000; }
    assert Pow10(15) == 1_000_000_000_000_000 by { assert Pow10(13) == 10_000_000_000_000; }
    assert Pow10(20) == 100_000_000_000_000_000_000 by { assert Pow10(18) == 1_000_000_000_000_000_000; }
    PrintLength(n, 20);
  }
}
