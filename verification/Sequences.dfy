/** Splitting a sequence at a separator (`str::split` with a char, `split(|b| ..)`) and joining. */
module Sequences {

  /** How `Split` grows its list by one element in front. */
  function Prepend<T(==)>(x: T, sep: T, parts: seq<seq<T>>): seq<seq<T>>
    requires parts != []
  {
    if x == sep then [[]] + parts else [[x] + parts[0]] + parts[1..]
  }

  /** One more piece than there are separators; never empty. */
  function Split<T(==)>(s: seq<T>, sep: T): (parts: seq<seq<T>>)
    ensures |parts| >= 1
  {
    if s == [] then [[]]
    else
      Prepend(s[0], sep, Split(s[1..], sep))
  }

  function Join<T>(parts: seq<seq<T>>, sep: T): seq<T> {
    if parts == [] then []
    else if |parts| == 1 then parts[0]
    else parts[0] + [sep] + Join(parts[1..], sep)
  }

  lemma {:induction false} SplitPieces<T>(s: seq<T>, sep: T)
    ensures forall i :: 0 <= i < |Split(s, sep)| ==> sep !in Split(s, sep)[i]
    ensures forall i, x :: 0 <= i < |Split(s, sep)| && x in Split(s, sep)[i] ==> x in s
  {
    if s != [] {
      SplitPieces(s[1..], sep);
      var rest := Split(s[1..], sep);
      forall i | 0 <= i < |Split(s, sep)|
        ensures sep !in Split(s, sep)[i] && forall x :: x in Split(s, sep)[i] ==> x in s
      {
        var p := Split(s, sep)[i];
        assert s == [s[0]] + s[1..];
        if s[0] == sep {
          if i > 0 { assert p == rest[i - 1]; }
        } else if i > 0 {
          assert p == rest[i];
        } else {
          assert p == [s[0]] + rest[0];
        }
      }
    }
  }

  lemma {:induction false} SplitWhole<T>(s: seq<T>, sep: T)
    requires sep !in s
    ensures Split(s, sep) == [s]
  {
    if s != [] {
      SplitWhole(s[1..], sep);
      assert [s[0]] + s[1..] == s;
    }
  }

  /** A separator is where two splits meet. */
  lemma {:induction false} SplitAppend<T>(a: seq<T>, sep: T, b: seq<T>)
    ensures Split(a + [sep] + b, sep) == Split(a, sep) + Split(b, sep)
  {
    if a == [] {
      assert (a + [sep] + b)[1..] == b;
    } else {
      var s := a + [sep] + b;
      var ra, rb := Split(a[1..], sep), Split(b, sep);
      assert s[1..] == a[1..] + [sep] + b && s[0] == a[0];
      SplitAppend(a[1..], sep, b);
      assert Split(s, sep) == Prepend(s[0], sep, ra + rb);
      assert Split(a, sep) == Prepend(a[0], sep, ra);
      hide Split;
      PrependAppend(a[0], sep, ra, rb);
    }
  }

  lemma PrependAppend<T>(x: T, sep: T, a: seq<seq<T>>, b: seq<seq<T>>)
    requires a != []
    ensures Prepend(x, sep, a + b) == Prepend(x, sep, a) + b
  {
    assert (a + b)[1..] == a[1..] + b;
  }

  lemma {:induction false} SplitFirst<T>(a: seq<T>, sep: T, b: seq<T>)
    requires sep !in a
    ensures Split(a + [sep] + b, sep) == [a] + Split(b, sep)
  {
    SplitWhole(a, sep);
    SplitAppend(a, sep, b);
  }

  lemma {:induction false} JoinSplit<T>(s: seq<T>, sep: T)
    ensures Join(Split(s, sep), sep) == s
  {
    if s != [] {
      JoinSplit(s[1..], sep);
      var rest := Split(s[1..], sep);
      if s[0] == sep {
        assert Split(s, sep)[1..] == rest;
      } else if |rest| > 1 {
        assert Split(s, sep)[1..] == rest[1..];
      }
    }
  }

  lemma {:induction false} SplitJoin<T>(parts: seq<seq<T>>, sep: T)
    requires parts != []
    requires forall i :: 0 <= i < |parts| ==> sep !in parts[i]
    ensures Split(Join(parts, sep), sep) == parts
  {
    if |parts| == 1 {
      SplitWhole(parts[0], sep);
    } else {
      SplitJoin(parts[1..], sep);
      SplitFirst(parts[0], sep, Join(parts[1..], sep));
    }
  }

  lemma Associative<T>(a: seq<T>, b: seq<T>, c: seq<T>)
    ensures (a + b) + c == a + (b + c)
  {
  }
}
