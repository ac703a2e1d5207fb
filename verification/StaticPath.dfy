/** Request paths of static files (arvik-static/src/lib.rs): checked, decoded and normalised. */
module StaticPath {
  import opened Utf8
  import opened Wrappers
  import opened Sequences
  import opened PercentDecoding

  // ---------------------------------------------------------------- escapes are well formed

  /** Every percent sign starts an escape. */
  predicate WellEscaped(path: seq<Byte>) {
    forall i :: 0 <= i < |path| && path[i] == PERCENT ==>
      i + 2 < |path| && IsHex(path[i + 1]) && IsHex(path[i + 2])
  }

  /** `valid_percent_encoding` */
  method ValidPercentEncoding(path: seq<Byte>) returns (ok: bool)
    ensures ok <==> WellEscaped(path)
  {
    var i := 0;
    while i < |path|
      invariant 0 <= i <= |path|
      invariant forall j :: 0 <= j < i && path[j] == PERCENT ==>
        j + 2 < |path| && IsHex(path[j + 1]) && IsHex(path[j + 2])
    {
      if path[i] == PERCENT {
        if i + 2 >= |path| || !IsHex(path[i + 1]) || !IsHex(path[i + 2]) {
          return false;
        }
        i := i + 3;
      } else {
        i := i + 1;
      }
    }
    return true;
  }

  // ---------------------------------------------------------------- normalisation

  /** `trim_start_matches('/')` */
  function TrimSlashes(path: seq<Byte>): seq<Byte> {
    if path != [] && path[0] == SLASH then TrimSlashes(path[1..]) else path
  }

  /** Slashes in front go, all of them, and nothing else does. */
  lemma {:induction false} TrimmedSlashes(path: seq<Byte>, slashes: nat, rest: seq<Byte>)
    requires slashes + |rest| == |path| && path[slashes..] == rest && !([SLASH] <= rest)
    requires forall i :: 0 <= i < slashes ==> path[i] == SLASH
    ensures TrimSlashes(path) == rest
  {
    if slashes > 0 {
      TrimmedSlashes(path[1..], slashes - 1, rest);
    } else {
      assert path == rest;
    }
  }

  /** The text whose components are looked at: `percent_decode_str`, which keeps no escape. */
  function Text(path: seq<Byte>): seq<Byte> { Decode(TrimSlashes(path), {}) }

  /** An ordinary component: a name. */
  predicate IsName(part: seq<Byte>) { part != [] && part != [DOT] }

  const PARENT: seq<Byte> := [DOT, DOT]

  function Names(parts: seq<seq<Byte>>): (names: seq<seq<Byte>>)
    ensures forall k :: 0 <= k < |names| ==> IsName(names[k]) && names[k] in parts
  {
    if parts == [] then []
    else
      var n := |parts| - 1;
      Names(parts[..n]) + if IsName(parts[n]) then [parts[n]] else []
  }

  predicate Accepts(path: seq<Byte>) {
    var text := Text(path);
    && WellEscaped(path)
    && Valid(text)
    && !([SLASH] <= text)
    && BACKSLASH !in text
    && NUL !in text
    && PARENT !in Split(text, SLASH)
  }

  function Normalised(path: seq<Byte>): seq<Byte> { Join(Names(Split(Text(path), SLASH)), SLASH) }

  lemma JoinCons(head: seq<Byte>, rest: seq<seq<Byte>>)
    ensures Join([head], SLASH) == head
    ensures rest != [] ==> Join([head] + rest, SLASH) == head + [SLASH] + Join(rest, SLASH)
  {
    assert ([head] + rest)[1..] == rest;
  }

  lemma Regroup<T>(a: seq<T>, b: seq<T>, c: seq<T>, d: seq<T>)
    ensures a + (b + c + d) == a + b + c + d
  {
  }

  lemma {:induction false} JoinSnoc(parts: seq<seq<Byte>>, last: seq<Byte>)
    ensures Join(parts + [last], SLASH) == if parts == [] then last else Join(parts, SLASH) + [SLASH] + last
  {
    hide *;
    if parts == [] {
      JoinCons(last, []);
      assert parts + [last] == [last];
    } else {
      var head, rest := parts[0], parts[1..];
      JoinSnoc(rest, last);
      JoinCons(head, rest);
      JoinCons(head, rest + [last]);
      assert parts == [head] + rest && parts + [last] == [head] + (rest + [last]);
      if rest == [] {
        assert [head] + rest == [head];
      } else {
        Regroup(head + [SLASH], Join(rest, SLASH), [SLASH], last);
      }
    }
  }

  lemma {:induction false} JoinEmpty(parts: seq<seq<Byte>>)
    requires forall k :: 0 <= k < |parts| ==> parts[k] != []
    ensures Join(parts, SLASH) == [] <==> parts == []
  {
    if parts != [] {
      assert parts[0] != [];
    }
  }

  lemma NothingPassed(parts: seq<seq<Byte>>)
    ensures Join(Names(parts[..0]), SLASH) == []
    ensures parts[..|parts|] == parts
  {
  }

  lemma NamesSnoc(parts: seq<seq<Byte>>, last: seq<Byte>)
    ensures Names([]) == []
    ensures Names(parts + [last]) == Names(parts) + if IsName(last) then [last] else []
  {
    assert (parts + [last])[..|parts|] == parts;
  }

  lemma NamesAreNames(parts: seq<seq<Byte>>, part: seq<Byte>)
    ensures forall k :: 0 <= k < |Names(parts)| ==> Names(parts)[k] != []
    ensures IsName(part) <==> !(part == [] || part == [DOT])
  {
  }

  /** What one component adds to the result. */
  lemma OnePassed(parts: seq<seq<Byte>>, i: nat)
    requires i < |parts|
    ensures var before := Join(Names(parts[..i]), SLASH);
      Join(Names(parts[..i + 1]), SLASH)
      == if parts[i] == [] || parts[i] == [DOT] then before
         else if before == [] then parts[i]
         else before + [SLASH] + parts[i]
    ensures parts[..i + 1] == parts[..i] + [parts[i]]
  {
    hide *;
    var names, part := Names(parts[..i]), parts[i];
    assert parts[..i + 1] == parts[..i] + [part];
    NamesSnoc(parts[..i], part);
    NamesAreNames(parts[..i], part);
    JoinEmpty(names);
    JoinSnoc(names, part);
    assert names + [] == names;
  }

  /** Two dots stand alone between slashes or the ends of the text. */
  ghost predicate HasParent(text: seq<Byte>) {
    exists i :: ParentAt(text, i)
  }

  ghost predicate ParentAt(text: seq<Byte>, i: int) {
    && 0 <= i <= i + 2 <= |text| && text[i] == text[i + 1] == DOT
    && (i == 0 || text[i - 1] == SLASH) && (i + 2 == |text| || text[i + 2] == SLASH)
  }

  lemma EscapesAre(path: seq<Byte>)
    ensures WellEscaped(path) <==>
      forall i :: 0 <= i < |path| && path[i] == PERCENT ==> i + 2 < |path| && IsHex(path[i + 1]) && IsHex(path[i + 2])
  {
  }

  lemma ParentOfWhole(text: seq<Byte>)
    requires SLASH !in text
    ensures HasParent(text) <==> text == PARENT
  {
    if text == PARENT {
      assert ParentAt(text, 0);
    }
    if i :| ParentAt(text, i) {
      assert i == 0 && |text| == 2;
    }
  }

  lemma ParentAround(a: seq<Byte>, b: seq<Byte>)
    ensures HasParent(a + [SLASH] + b) <==> HasParent(a) || HasParent(b)
  {
    var s, n := a + [SLASH] + b, |a|;
    assert s[n] == SLASH && forall i :: 0 <= i < |b| ==> s[n + 1 + i] == b[i];
    if i :| ParentAt(a, i) {
      assert ParentAt(s, i);
    }
    if i :| ParentAt(b, i) {
      assert ParentAt(s, n + 1 + i);
    }
    if i :| ParentAt(s, i) {
      if i < n {
        assert ParentAt(a, i);
      } else {
        assert i > n;
        assert ParentAt(b, i - n - 1);
      }
    }
  }

  /** A parent component is two dots between slashes. */
  lemma {:induction false} ParentIff(text: seq<Byte>)
    ensures PARENT in Split(text, SLASH) <==> HasParent(text)
    decreases |text|
  {
    hide HasParent, Split;
    if SLASH in text {
      var i :| 0 <= i < |text| && text[i] == SLASH;
      var a, b := text[..i], text[i + 1..];
      assert text == a + [SLASH] + b;
      SplitAppend(a, SLASH, b);
      ParentIff(a);
      ParentIff(b);
      ParentAround(a, b);
    } else {
      SplitWhole(text, SLASH);
      ParentOfWhole(text);
    }
  }

  /** `relative_path`: one pass over the components, building the result as it goes. It accepts
      exactly the paths `Accepts` describes, whatever the order of its checks. */
  method RelativePath(path: seq<Byte>) returns (r: Option<seq<Byte>>)
    requires Valid(path)
    ensures r == if Accepts(path) then Some(Normalised(path)) else None
    ensures r.Some? ==>
      forall i :: 0 <= i < |path| && path[i] == PERCENT ==>
        i + 2 < |path| && IsHex(path[i + 1]) && IsHex(path[i + 2])
    ensures r.Some? ==> Valid(Text(path)) && BACKSLASH !in Text(path) && NUL !in Text(path)
    ensures r.Some? ==> !([SLASH] <= Text(path)) && !HasParent(Text(path))
    ensures r.None? ==>
      || !WellEscaped(path) || !Valid(Text(path)) || [SLASH] <= Text(path)
      || BACKSLASH in Text(path) || NUL in Text(path) || HasParent(Text(path))
  {
    EscapesAre(path);
    ParentIff(Text(path));
    hide HasParent, WellEscaped, Valid, Split, Text, Join, Names, IsName;
    var wellEscaped := ValidPercentEncoding(path);
    if !wellEscaped {
      return None;
    }
    var decoded := Text(path);
    if !Valid(decoded) {
      return None;
    }
    if [SLASH] <= decoded || BACKSLASH in decoded || NUL in decoded {
      return None;
    }
    var parts := Split(decoded, SLASH);
    NothingPassed(parts);
    var assetPath: seq<Byte> := [];
    for i := 0 to |parts|
      invariant PARENT !in parts[..i]
      invariant assetPath == Join(Names(parts[..i]), SLASH)
    {
      var part := parts[i];
      OnePassed(parts, i);
      if part == [] || part == [DOT] {
      } else if part == PARENT {
        return None;
      } else {
        if assetPath != [] {
          assetPath := assetPath + [SLASH];
        }
        assetPath := assetPath + part;
      }
    }
    assert parts[..|parts|] == parts;
    return Some(assetPath);
  }

  // ---------------------------------------------------------------- walking never leaves the root

  /** Following components from a directory below the root; `None` once a step leaves the root. */
  function Walk(directory: seq<seq<Byte>>, parts: seq<seq<Byte>>): Option<seq<seq<Byte>>>
    decreases |parts|
  {
    if parts == [] then Some(directory)
    else if parts[0] == PARENT then
      if directory == [] then None else Walk(directory[..|directory| - 1], parts[1..])
    else Walk(if IsName(parts[0]) then directory + [parts[0]] else directory, parts[1..])
  }

  lemma {:induction false} NamesAppend(a: seq<seq<Byte>>, b: seq<seq<Byte>>)
    ensures Names(a + b) == Names(a) + Names(b)
    decreases |b|
  {
    hide *;
    if b == [] {
      NamesSnoc([], []);
      assert a + b == a && Names(a) + [] == Names(a);
    } else {
      var rest, last := b[..|b| - 1], b[|b| - 1];
      NamesAppend(a, rest);
      assert b == rest + [last];
      Associative(a, rest, [last]);
      NamesSnoc(a + rest, last);
      NamesSnoc(rest, last);
      Associative(Names(a), Names(rest), if IsName(last) then [last] else []);
    }
  }

  lemma NamesOfOne(part: seq<Byte>)
    ensures Names([part]) == if part == [] || part == [DOT] then [] else [part]
  {
    var one := [part];
    assert one[..0] == [];
  }

  /** Of the components the empty ones and single dots go; the others stay, in their order. */
  lemma ComponentsKept(a: seq<seq<Byte>>, part: seq<Byte>, b: seq<seq<Byte>>)
    ensures Names(a + [part] + b) == Names(a) + (if part == [] || part == [DOT] then [] else [part]) + Names(b)
  {
    hide *;
    NamesAppend(a + [part], b);
    NamesAppend(a, [part]);
    NamesOfOne(part);
  }

  /** A path whose text has neither is its own result. */
  lemma CleanTextStays(path: seq<Byte>)
    requires forall part :: part in Split(Text(path), SLASH) ==> part != [] && part != [DOT]
    ensures Normalised(path) == Text(path)
  {
    hide Text, Split, Names, Join;
    var parts := Split(Text(path), SLASH);
    assert forall k :: 0 <= k < |parts| ==> parts[k] in parts;
    NamesAreStable(parts);
    JoinSplit(Text(path), SLASH);
  }

  lemma {:induction false} WalkWithoutParents(directory: seq<seq<Byte>>, parts: seq<seq<Byte>>)
    requires PARENT !in parts
    ensures Walk(directory, parts) == Some(directory + Names(parts))
    decreases |parts|
  {
    if parts == [] {
      assert directory + [] == directory;
    } else {
      var step := if IsName(parts[0]) then [parts[0]] else [];
      assert parts == [parts[0]] + parts[1..];
      NamesAppend([parts[0]], parts[1..]);
      NamesOfOne(parts[0]);
      assert directory + step == if IsName(parts[0]) then directory + [parts[0]] else directory;
      WalkWithoutParents(directory + step, parts[1..]);
      Associative(directory, step, Names(parts[1..]));
    }
  }

  lemma {:induction false} NamesAreStable(parts: seq<seq<Byte>>)
    requires forall k :: 0 <= k < |parts| ==> IsName(parts[k])
    ensures Names(parts) == parts
  {
    hide *;
    if parts == [] {
      NamesSnoc([], []);
    } else {
      var rest, last := parts[..|parts| - 1], parts[|parts| - 1];
      NamesAreStable(rest);
      assert parts == rest + [last];
      NamesSnoc(rest, last);
    }
  }

  /** What an accepted path normalises to, split again: the names, or one empty component. */
  lemma NormalisedParts(path: seq<Byte>)
    requires Accepts(path)
    ensures var names := Names(Split(Text(path), SLASH));
      Split(Normalised(path), SLASH) == if names == [] then [[]] else names
  {
    var parts := Split(Text(path), SLASH);
    var names := Names(parts);
    SplitPieces(Text(path), SLASH);
    if names != [] {
      forall k | 0 <= k < |names|
        ensures SLASH !in names[k]
      {
        var i :| 0 <= i < |parts| && parts[i] == names[k];
      }
      SplitJoin(names, SLASH);
    }
  }

  lemma WalkOfNames(parts: seq<seq<Byte>>)
    requires PARENT !in parts
    ensures Walk([], parts) == Some(Names(parts))
  {
    WalkWithoutParents([], parts);
    assert [] + Names(parts) == Names(parts);
  }

  /** The result names the file the request's components lead to, component by component and
      without stepping out of the root on the way, whether one walks the decoded text or the
      result. */
  lemma WalksAgree(path: seq<Byte>, steps: nat)
    requires Accepts(path)
    ensures var parts := Split(Text(path), SLASH);
      && Walk([], parts) == Walk([], Split(Normalised(path), SLASH)) == Some(Names(parts))
      && (steps <= |parts| ==> Walk([], parts[..steps]) == Some(Names(parts[..steps])))
  {
    var parts := Split(Text(path), SLASH);
    assert PARENT !in parts;
    NormalisedParts(path);
    hide *;
    WalkOfNames(parts);
    if steps <= |parts| {
      assert PARENT !in parts[..steps];
      WalkOfNames(parts[..steps]);
    }
    if Names(parts) == [] {
      NamesOfOne([]);
      WalkOfNames([[]]);
    } else {
      NoParents(parts);
      WalkOfNames(Names(parts));
      NamesAreStable(Names(parts));
    }
  }

  lemma NoParents(parts: seq<seq<Byte>>)
    requires PARENT !in parts
    ensures PARENT !in Names(parts)
  {
  }

  // ---------------------------------------------------------------- normalising again

  lemma {:induction false} BytesOfJoin(parts: seq<seq<Byte>>, b: Byte)
    requires b != SLASH && b in Join(parts, SLASH)
    ensures exists k :: 0 <= k < |parts| && b in parts[k]
  {
    if b !in parts[0] {
      BytesOfJoin(parts[1..], b);
      var k :| 0 <= k < |parts[1..]| && b in parts[1..][k];
      assert parts[k + 1] == parts[1..][k];
    }
  }

  lemma {:induction false} ValidPieces(parts: seq<seq<Byte>>)
    requires parts != []
    ensures Valid(Join(parts, SLASH)) <==> forall k :: 0 <= k < |parts| ==> Valid(parts[k])
  {
    if |parts| > 1 {
      var rest := parts[1..];
      ValidPieces(rest);
      ValidAroundAscii(parts[0], SLASH, Join(rest, SLASH));
      hide Valid, Join;
      if forall k :: 0 <= k < |parts| ==> Valid(parts[k]) {
        forall k | 0 <= k < |rest| ensures Valid(rest[k]) { assert rest[k] == parts[k + 1]; }
      }
      if Valid(parts[0]) && forall k :: 0 <= k < |rest| ==> Valid(rest[k]) {
        forall k | 0 <= k < |parts| ensures Valid(parts[k]) { if k > 0 { assert parts[k] == rest[k - 1]; } }
      }
    }
  }

  lemma {:induction false} EncodedIsWellEscaped(text: seq<Byte>, styles: seq<Style>)
    requires |styles| == |text| && PercentsEscaped(text, styles)
    ensures WellEscaped(Encode(text, styles))
  {
    if text != [] {
      var first, rest := EncodeByte(text[0], styles[0]), Encode(text[1..], styles[1..]);
      EncodedIsWellEscaped(text[1..], styles[1..]);
      var s := first + rest;
      assert s == Encode(text, styles);
      hide Encode, PercentsEscaped;
      forall i | 0 <= i < |s| && s[i] == PERCENT
        ensures i + 2 < |s| && IsHex(s[i + 1]) && IsHex(s[i + 2])
      {
        if i >= |first| {
          assert rest[i - |first|] == s[i];
        } else if styles[0].Escaped? {
          assert IsHex(first[1]) && IsHex(first[2]);
          assert !IsHex(PERCENT);
        }
      }
    }
  }

  function Slashes(n: nat): seq<Byte> { seq(n, _ => SLASH) }

  lemma SlashesInFront(n: nat, s: seq<Byte>)
    requires WellEscaped(s) && !([SLASH] <= s)
    ensures WellEscaped(Slashes(n) + s) && TrimSlashes(Slashes(n) + s) == s
  {
    var path := Slashes(n) + s;
    assert path[n..] == s;
    TrimmedSlashes(path, n, s);
    forall i | 0 <= i < |path| && path[i] == PERCENT
      ensures i + 2 < |path| && IsHex(path[i + 1]) && IsHex(path[i + 2])
    {
      assert s[i - n] == path[i];
      assert s[i - n + 1] == path[i + 1] && s[i - n + 2] == path[i + 2];
    }
  }

  /** A text asked for behind any number of slashes, percent-encoded in any way that escapes its percent
      signs: it is accepted exactly when it is UTF-8 without a backslash, a NUL or a parent component and
      does not start with a slash that was escaped, and its names are those of the text. */
  lemma EncodedRequest(slashes: nat, text: seq<Byte>, styles: seq<Style>)
    requires |styles| == |text| && PercentsEscaped(text, styles) && !([SLASH] <= Encode(text, styles))
    ensures var path := Slashes(slashes) + Encode(text, styles);
      && (Accepts(path)
          <==> Valid(text) && !([SLASH] <= text) && BACKSLASH !in text && NUL !in text && !HasParent(text))
      && Normalised(path) == Join(Names(Split(text, SLASH)), SLASH)
  {
    hide Encode, Decode, WellEscaped, Valid, HasParent, Split, Names, Join, TrimSlashes, Slashes;
    EncodedIsWellEscaped(text, styles);
    SlashesInFront(slashes, Encode(text, styles));
    DecodeEncode(text, styles, {});
    ParentIff(text);
  }

  /** The text of a percent-encoded result is the result. */
  lemma ReencodedText(path: seq<Byte>, styles: seq<Style>)
    requires Accepts(path)
    requires |styles| == |Normalised(path)| && PercentsEscaped(Normalised(path), styles)
    ensures var again := Encode(Normalised(path), styles);
      WellEscaped(again) && Text(again) == Normalised(path)
  {
    hide Normalised, Accepts, Decode, Encode, WellEscaped, Valid;
    var r := Normalised(path);
    NormalisedIsClean(path);
    EncodedIsWellEscaped(r, styles);
    DecodeEncode(r, styles, {});
    EncodedStart(r, styles);
  }

  /** The result has the names of the text it was made from, and no parent component. */
  lemma NormalisedNames(path: seq<Byte>)
    requires Accepts(path)
    ensures Names(Split(Normalised(path), SLASH)) == Names(Split(Text(path), SLASH))
    ensures PARENT !in Split(Normalised(path), SLASH)
  {
    var parts := Split(Text(path), SLASH);
    assert PARENT !in parts;
    NormalisedParts(path);
    NoParents(parts);
    NamesOfOne([]);
    hide Text, Split, Normalised, Names, Accepts;
    NamesAreStable(Names(parts));
  }

  lemma AcceptedByText(path: seq<Byte>, text: seq<Byte>)
    requires Text(path) == text && WellEscaped(path) && Valid(text)
    requires !([SLASH] <= text) && BACKSLASH !in text && NUL !in text && PARENT !in Split(text, SLASH)
    ensures Accepts(path) && Normalised(path) == Join(Names(Split(text, SLASH)), SLASH)
  {
    hide Text, WellEscaped, Valid, Split, Names, Join;
  }

  /** The result is a fixed point: percent-encode it in any way that escapes its percent signs,
      ask for that path, and the same result comes back. */
  lemma NormalisingAgainChangesNothing(path: seq<Byte>, styles: seq<Style>)
    requires Accepts(path)
    requires |styles| == |Normalised(path)| && PercentsEscaped(Normalised(path), styles)
    ensures var again := Encode(Normalised(path), styles);
      Accepts(again) && Text(again) == Normalised(path) && Normalised(again) == Normalised(path)
  {
    hide *;
    ReencodedText(path, styles);
    NormalisedIsClean(path);
    NormalisedNames(path);
    AcceptedByText(Encode(Normalised(path), styles), Normalised(path));
    NormalisedIsJoin(path);
  }

  lemma NormalisedIsJoin(path: seq<Byte>)
    ensures Normalised(path) == Join(Names(Split(Text(path), SLASH)), SLASH)
  {
  }

  lemma EncodedStart(text: seq<Byte>, styles: seq<Style>)
    requires |styles| == |text|
    requires !([SLASH] <= text)
    ensures TrimSlashes(Encode(text, styles)) == Encode(text, styles)
  {
  }

  lemma NormalisedIsClean(path: seq<Byte>)
    requires Accepts(path)
    ensures var r := Normalised(path);
      Valid(r) && !([SLASH] <= r) && BACKSLASH !in r && NUL !in r
  {
    hide Text, Split, Valid;
    var text := Text(path);
    var parts := Split(text, SLASH);
    var names := Names(parts);
    SplitPieces(text, SLASH);
    JoinSplit(text, SLASH);
    ValidPieces(parts);
    if names != [] {
      ValidPieces(names);
    } else {
      AsciiIsValid([]);
    }
    forall b: Byte | b == BACKSLASH || b == NUL
      ensures b !in Join(names, SLASH)
    {
      if b in Join(names, SLASH) {
        BytesOfJoin(names, b);
      }
    }
  }
}
