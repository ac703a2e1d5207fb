/** `Accept-Encoding` negotiation (arvik-core/src/accept.rs), with its two callers
    (arvik-static/src/lib.rs, arvik-middleware/src/compression.rs). */
module Accept {
  import opened Wrappers
  import opened Sequences
  import opened Text

  /** An `f32`; only its order matters here. */
  datatype F32 = NaN | NegInf | Num(r: real) | PosInf

  const ONE := Num(1.0)

  /** `str::parse::<f32>`, left abstract. */
  type Parser = string -> Option<F32>

  /** `clamp(0.0, 1.0)` keeps NaN. */
  function Clamp(q: F32): (r: F32)
    ensures r.NaN? <==> q.NaN?
    ensures !q.NaN? ==> r.Num? && 0.0 <= r.r <= 1.0
    ensures q.Num? && 0.0 <= q.r <= 1.0 ==> r == q
    ensures q.PosInf? || (q.Num? && q.r > 1.0) ==> r == ONE
    ensures Positive(r) <==> Positive(q)
  {
    match q
    case NaN => NaN
    case NegInf => Num(0.0)
    case PosInf => ONE
    case Num(r) => if r < 0.0 then Num(0.0) else if r > 1.0 then ONE else q
  }

  /** `q > 0.0` */
  predicate Positive(q: F32) { q.PosInf? || (q.Num? && q.r > 0.0) }

  // ---------------------------------------------------------------- the reference

  datatype Weighted = Weighted(coding: string, quality: F32)

  /** The segment is a `q` attribute. */
  predicate IsWeight(segment: string) { StartsWith(Trim(segment), "q=") || StartsWith(Trim(segment), "Q=") }

  /** The weight it gives; one that does not parse counts as 1. */
  function WeightOf(num: Parser, segment: string): F32
    requires IsWeight(segment)
  {
    var v := num(Trim(Trim(segment)[2..]));
    if v.Some? then v.value else ONE
  }

  /** What one attribute segment makes of the quality so far. */
  function Attribute(num: Parser, quality: F32, segment: string): F32 {
    if IsWeight(segment) then WeightOf(num, segment) else quality
  }

  function Attributes(num: Parser, quality: F32, segments: seq<string>): F32
    decreases |segments|
  {
    if segments == [] then quality
    else Attributes(num, Attribute(num, quality, segments[0]), segments[1..])
  }

  function Segments(entry: string): (parts: seq<string>)
    ensures parts != []
  {
    Split(Trim(entry), ';')
  }

  function Weigh(num: Parser, entry: string): Weighted {
    var parts := Segments(entry);
    Weighted(Lower(Trim(parts[0])), Clamp(Attributes(num, ONE, parts[1..])))
  }

  /** One pair for each comma-separated entry, empty codings included. */
  function WeighAll(num: Parser, entries: seq<string>): (ws: seq<Weighted>)
    ensures |ws| == |entries|
  {
    seq(|entries|, i requires 0 <= i < |entries| => Weigh(num, entries[i]))
  }

  function Kept(w: Weighted): seq<Weighted> {
    if w.coding == "" then [] else [w]
  }

  function Named(ws: seq<Weighted>): seq<Weighted> {
    if ws == [] then [] else Named(ws[..|ws| - 1]) + Kept(ws[|ws| - 1])
  }

  /** `parse_accept_encodings`: entries without a coding are dropped. */
  function ParseAcceptEncodings(num: Parser, value: string): seq<Weighted> {
    Named(WeighAll(num, Split(value, ',')))
  }

  /** The quality the last entry for `coding` gives. */
  function LastQuality(ws: seq<Weighted>, coding: string): Option<F32> {
    if ws == [] then None
    else
      var n := |ws| - 1;
      if ws[n].coding == coding then Some(ws[n].quality) else LastQuality(ws[..n], coding)
  }

  /** Section 12.5.3 of RFC 9110: the coding's own entry decides, and a wildcard decides for the
      codings that have none. Of several entries the last counts. */
  predicate Acceptable(ws: seq<Weighted>, candidate: string) {
    match LastQuality(ws, Lower(candidate))
    case Some(q) => Positive(q)
    case None => match LastQuality(ws, "*") case Some(q) => Positive(q) case None => false
  }

  /** The first candidate, in the server's order, that is acceptable. */
  function Preferred(supported: seq<string>, ws: seq<Weighted>): Option<string> {
    if supported == [] then None
    else if Acceptable(ws, supported[0]) then Some(supported[0])
    else Preferred(supported[1..], ws)
  }

  /** Entry `k` is the last one for the coding. */
  ghost predicate LastNamed(ws: seq<Weighted>, coding: string, k: nat) {
    k < |ws| && ws[k].coding == coding && forall j :: k < j < |ws| ==> ws[j].coding != coding
  }

  ghost predicate Unnamed(ws: seq<Weighted>, coding: string) { forall j :: 0 <= j < |ws| ==> ws[j].coding != coding }

  /** More than zero. */
  predicate Wanted(q: F32) { q != NaN && q != NegInf && !(q.Num? && q.r <= 0.0) }

  lemma UnnamedSnoc(ws: seq<Weighted>, w: Weighted, coding: string)
    ensures Unnamed(ws + [w], coding) <==> Unnamed(ws, coding) && w.coding != coding
  {
    var all := ws + [w];
    if Unnamed(all, coding) {
      assert all[|ws|] == w;
      forall j | 0 <= j < |ws| ensures ws[j].coding != coding { assert all[j] == ws[j]; }
    }
  }

  lemma LastNamedSnoc(ws: seq<Weighted>, w: Weighted, coding: string, k: nat)
    requires LastNamed(ws + [w], coding, k)
    ensures if k == |ws| then w.coding == coding else w.coding != coding && LastNamed(ws, coding, k)
  {
    var all := ws + [w];
    assert all[|ws|] == w;
    assert forall j :: 0 <= j < |ws| ==> all[j] == ws[j];
  }

  lemma LastQualitySnoc(ws: seq<Weighted>, w: Weighted, coding: string)
    ensures LastQuality([], coding) == None
    ensures LastQuality(ws + [w], coding) == if w.coding == coding then Some(w.quality) else LastQuality(ws, coding)
  {
    assert (ws + [w])[..|ws|] == ws;
  }

  lemma {:induction false} LastQualityAt(ws: seq<Weighted>, coding: string)
    ensures LastQuality(ws, coding).None? <==> Unnamed(ws, coding)
    ensures forall k: nat :: LastNamed(ws, coding, k) ==> LastQuality(ws, coding) == Some(ws[k].quality)
  {
    if ws == [] {
    } else {
      hide LastQuality, Unnamed, LastNamed;
      var before, w := ws[..|ws| - 1], ws[|ws| - 1];
      assert ws == before + [w];
      LastQualityAt(before, coding);
      UnnamedSnoc(before, w, coding);
      LastQualitySnoc(before, w, coding);
      forall k: nat | LastNamed(ws, coding, k)
        ensures k < |ws| && LastQuality(ws, coding) == Some(ws[k].quality)
      {
        LastNamedSnoc(before, w, coding, k);
      }
    }
  }

  /** The rule of section 12.5.3 of RFC 9110, by the positions of the entries: the last entry for the
      coding decides, where there is none the last `*` entry does, and where there is neither the coding
      is refused. */
  lemma AcceptableRule(ws: seq<Weighted>, candidate: string)
    ensures forall k: nat :: LastNamed(ws, Lower(candidate), k) ==>
      (Acceptable(ws, candidate) <==> Wanted(ws[k].quality))
    ensures forall k: nat :: Unnamed(ws, Lower(candidate)) && LastNamed(ws, "*", k) ==>
      (Acceptable(ws, candidate) <==> Wanted(ws[k].quality))
    ensures Unnamed(ws, Lower(candidate)) && Unnamed(ws, "*") ==> !Acceptable(ws, candidate)
  {
    LastQualityAt(ws, Lower(candidate));
    LastQualityAt(ws, "*");
  }

  /** `r` is the first candidate that is acceptable, or there is none. */
  ghost predicate FirstAcceptable(supported: seq<string>, ws: seq<Weighted>, r: Option<string>) {
    match r
    case None => forall i :: 0 <= i < |supported| ==> !Acceptable(ws, supported[i])
    case Some(name) =>
      exists i :: 0 <= i < |supported| && supported[i] == name && Acceptable(ws, supported[i])
                  && forall j :: 0 <= j < i ==> !Acceptable(ws, supported[j])
  }

  lemma {:induction false} PreferredIsFirst(supported: seq<string>, ws: seq<Weighted>)
    ensures FirstAcceptable(supported, ws, Preferred(supported, ws))
  {
    hide Acceptable;
    if supported != [] {
      var rest := supported[1..];
      PreferredIsFirst(rest, ws);
      if !Acceptable(ws, supported[0]) {
        match Preferred(rest, ws)
        case None =>
          forall i | 0 <= i < |supported| ensures !Acceptable(ws, supported[i]) {
            if i > 0 { assert rest[i - 1] == supported[i]; }
          }
        case Some(name) =>
          var i :| 0 <= i < |rest| && rest[i] == name && Acceptable(ws, rest[i])
                   && forall j :: 0 <= j < i ==> !Acceptable(ws, rest[j]);
          assert supported[i + 1] == name;
          forall j | 0 <= j < i + 1 ensures !Acceptable(ws, supported[j]) {
            if j > 0 { assert rest[j - 1] == supported[j]; }
          }
      }
    }
  }

  // ---------------------------------------------------------------- the loops

  /** `segments[k]` is the last `q` attribute. */
  ghost predicate LastWeightAt(segments: seq<string>, k: nat) {
    k < |segments| && IsWeight(segments[k]) && forall j :: k < j < |segments| ==> !IsWeight(segments[j])
  }

  /** The last `q` attribute decides alone. */
  lemma {:induction false} LastWeightDecides(num: Parser, quality: F32, segments: seq<string>)
    ensures (forall j :: 0 <= j < |segments| ==> !IsWeight(segments[j])) ==>
      Attributes(num, quality, segments) == quality
    ensures forall k: nat :: LastWeightAt(segments, k) ==>
      Attributes(num, quality, segments) == WeightOf(num, segments[k])
    decreases |segments|
  {
    hide IsWeight, WeightOf;
    if segments != [] {
      var rest := segments[1..];
      LastWeightDecides(num, Attribute(num, quality, segments[0]), rest);
      forall k: nat | LastWeightAt(segments, k)
        ensures Attributes(num, quality, segments) == WeightOf(num, segments[k])
      {
        if k > 0 { assert LastWeightAt(rest, k - 1); }
      }
    }
  }

  /** The last `q` attribute gives the quality, whatever came before; without one it is 1. */
  method ParseQ(num: Parser, segments: seq<string>) returns (quality: F32)
    ensures quality == Clamp(Attributes(num, ONE, segments))
    ensures (forall j :: 0 <= j < |segments| ==> !IsWeight(segments[j])) ==> quality == ONE
    ensures forall k: nat :: LastWeightAt(segments, k) ==> quality == Clamp(WeightOf(num, segments[k]))
  {
    LastWeightDecides(num, ONE, segments);
    quality := ONE;
    for i := 0 to |segments|
      invariant Attributes(num, ONE, segments) == Attributes(num, quality, segments[i..])
    {
      assert segments[i..][0] == segments[i] && segments[i..][1..] == segments[i + 1..];
      var parameter := Trim(segments[i]);
      if StartsWith(parameter, "q=") || StartsWith(parameter, "Q=") {
        var v := num(Trim(parameter[2..]));
        quality := if v.Some? then v.value else ONE;
      }
    }
    return Clamp(quality);
  }

  lemma NoQualityYet(coding: string)
    ensures LastQuality([], coding) == None
  {
  }

  lemma LastQualityStep(ws: seq<Weighted>, i: nat, coding: string)
    requires i < |ws|
    ensures LastQuality(ws[..i + 1], coding)
         == if ws[i].coding == coding then Some(ws[i].quality) else LastQuality(ws[..i], coding)
  {
    assert ws[..i + 1][..i] == ws[..i];
  }

  lemma PreferredStep(supported: seq<string>, c: nat, ws: seq<Weighted>)
    requires c <= |supported|
    ensures c == |supported| ==> Preferred(supported[c..], ws) == None
    ensures c < |supported| ==>
      Preferred(supported[c..], ws)
      == if Acceptable(ws, supported[c]) then Some(supported[c]) else Preferred(supported[c + 1..], ws)
  {
  }

  /** `negotiate` never builds the list of pairs, yet answers as if it had, for any candidates. */
  method Negotiate(num: Parser, supported: seq<string>, header: string) returns (r: Option<string>)
    ensures r == Preferred(supported, WeighAll(num, Split(header, ',')))
    ensures FirstAcceptable(supported, WeighAll(num, Split(header, ',')), r)
  {
    hide Split, Trim, Attributes, Clamp, Segments, Positive, LastQuality, Preferred, LastWeightAt, IsWeight;
    hide FirstAcceptable;
    var entries := Split(header, ',');
    ghost var ws := WeighAll(num, entries);
    assert supported[0..] == supported;
    PreferredIsFirst(supported, ws);
    for c := 0 to |supported|
      invariant Preferred(supported, ws) == Preferred(supported[c..], ws)
    {
      var candidate := supported[c];
      PreferredStep(supported, c, ws);
      var exactSeen, exactAllowed, wildcardAllowed := false, false, false;
      NoQualityYet(Lower(candidate));
      NoQualityYet("*");
      assert ws[..0] == [];
      for i := 0 to |entries|
        invariant exactSeen <==> LastQuality(ws[..i], Lower(candidate)).Some?
        invariant exactSeen ==> (exactAllowed <==> Positive(LastQuality(ws[..i], Lower(candidate)).value))
        invariant !exactSeen ==>
          (wildcardAllowed <==> LastQuality(ws[..i], "*").Some? && Positive(LastQuality(ws[..i], "*").value))
      {
        var segments := Segments(entries[i]);
        var coding := Trim(segments[0]);
        LastQualityStep(ws, i, Lower(candidate));
        LastQualityStep(ws, i, "*");
        StarFoldsToItself(coding);
        if EqIgnoreCase(coding, candidate) {
          exactSeen := true;
          var q := ParseQ(num, segments[1..]);
          exactAllowed := Positive(q);
        } else if coding == "*" {
          var q := ParseQ(num, segments[1..]);
          wildcardAllowed := Positive(q);
        }
      }
      assert ws[..|entries|] == ws;
      var allowed := if exactSeen then exactAllowed else wildcardAllowed;
      if allowed {
        return Some(candidate);
      }
    }
    PreferredStep(supported, |supported|, ws);
    return None;
  }

  lemma StarFoldsToItself(s: string)
    ensures Lower(s) == "*" <==> s == "*"
  {
    if Lower(s) == "*" {
      assert Lower(s)[0] == LowerChar(s[0]);
      assert s == [s[0]];
    }
    if s == "*" {
      assert Lower(s) == "*";
    }
  }

  // ---------------------------------------------------------------- printed headers

  /** `w` as in `; q=0.5`, with white space around its parts. */
  datatype Weight = Weight(before: string, upper: bool, after: string, text: string)

  /** One entry as a client may write it: a coding, perhaps a weight, and white space. */
  datatype Item = Item(before: string, coding: string, middle: string, weight: Option<Weight>, after: string)

  function PrintWeight(w: Weight): string { w.before + (if w.upper then "Q=" else "q=") + w.after + w.text }

  function PrintItem(i: Item): string {
    i.before + (i.coding + (if i.weight.Some? then i.middle + [';'] + PrintWeight(i.weight.value) else "")) + i.after
  }

  /** A token: not empty, no separators, no white space at its ends. */
  predicate IsToken(s: string) { s != "" && Trimmed(s) && ',' !in s && ';' !in s }

  predicate Printable(i: Item) {
    && Blank(i.before) && Blank(i.middle) && Blank(i.after) && IsToken(i.coding)
    && (i.weight.Some? ==> Blank(i.weight.value.before) && Blank(i.weight.value.after) && IsToken(i.weight.value.text))
  }

  /** What the entry says. */
  function Said(num: Parser, i: Item): Weighted {
    Weighted(
      Lower(i.coding),
      Clamp(if i.weight.Some? && num(i.weight.value.text).Some? then num(i.weight.value.text).value else ONE))
  }

  lemma BlankHasNo(s: string, c: char)
    requires Blank(s) && !IsWhite(c)
    ensures c !in s
  {
  }

  lemma PrintedWeight(w: Weight)
    requires Blank(w.before) && Blank(w.after) && IsToken(w.text)
    ensures ',' !in PrintWeight(w) && ';' !in PrintWeight(w)
    ensures PrintWeight(w) != "" && !IsWhite(PrintWeight(w)[|PrintWeight(w)| - 1])
  {
    hide Blank, IsWhite;
    SeparatorsAreNotWhite();
    BlankHasNo(w.before, ',');
    BlankHasNo(w.after, ',');
    BlankHasNo(w.before, ';');
    BlankHasNo(w.after, ';');
    var s := PrintWeight(w);
    assert s[|s| - 1] == w.text[|w.text| - 1];
  }

  lemma WeightMark(upper: bool, after: string, text: string)
    requires text != "" && !IsWhite(text[|text| - 1])
    ensures var core := (if upper then "Q=" else "q=") + after + text;
      Trimmed(core) && core[..2] == (if upper then "Q=" else "q=") && core[2..] == after + text + ""
      && (StartsWith(core, "q=") || StartsWith(core, "Q="))
  {
    var q := if upper then "Q=" else "q=";
    var core := q + after + text;
    assert core[|core| - 1] == text[|text| - 1] && core[0] == q[0];
    assert !IsWhite('q') && !IsWhite('Q');
    assert core[..2] == q;
  }

  /** A weight attribute gives the number it holds, or 1 when that does not parse. */
  lemma WeightRead(num: Parser, w: Weight)
    requires Blank(w.before) && Blank(w.after) && IsToken(w.text)
    ensures Attributes(num, ONE, [PrintWeight(w)]) == if num(w.text).Some? then num(w.text).value else ONE
  {
    hide Blank, IsWhite, Trim;
    var s := PrintWeight(w);
    var core := (if w.upper then "Q=" else "q=") + w.after + w.text;
    assert s == w.before + core + "";
    BlankNothing();
    WeightMark(w.upper, w.after, w.text);
    TrimPadded(w.before, core, "");
    TrimPadded(w.after, w.text, "");
    assert [s][1..] == [];
    assert Attributes(num, Attribute(num, ONE, s), [s][1..]) == Attribute(num, ONE, s);
  }

  /** An entry is cut at its semicolon, if it has one. */
  lemma PrintedSegments(i: Item)
    requires Printable(i)
    ensures Trim(Segments(PrintItem(i))[0]) == i.coding
    ensures Segments(PrintItem(i))[1..] == if i.weight.Some? then [PrintWeight(i.weight.value)] else []
  {
    hide Trim, Blank, IsWhite, PrintWeight;
    var coding := i.coding;
    BlankNothing();
    match i.weight
    case None =>
      assert coding + "" == coding == "" + coding + "";
      TrimPadded(i.before, coding, i.after);
      TrimPadded("", coding, "");
      SplitWhole(coding, ';');
    case Some(w) =>
      PrintedWeight(w);
      var rest, first := PrintWeight(w), coding + i.middle;
      var core := coding + (i.middle + [';'] + rest);
      assert core[0] == coding[0] && core[|core| - 1] == rest[|rest| - 1];
      TrimPadded(i.before, core, i.after);
      assert core == first + [';'] + rest && first == "" + coding + i.middle;
      SeparatorsAreNotWhite();
      BlankHasNo(i.middle, ';');
      SplitFirst(first, ';', rest);
      SplitWhole(rest, ';');
      TrimPadded("", coding, i.middle);
  }

  lemma PrintedItem(num: Parser, i: Item)
    requires Printable(i)
    ensures ',' !in PrintItem(i) && Weigh(num, PrintItem(i)) == Said(num, i)
  {
    hide Trim, Segments, Attributes, Blank, IsWhite, Lower, Clamp, PrintWeight, PrintItem;
    CommasOutside(i);
    PrintedSegments(i);
    NoAttributes(num);
    if i.weight.Some? {
      WeightRead(num, i.weight.value);
    }
  }

  lemma SeparatorsAreNotWhite()
    ensures !IsWhite(',') && !IsWhite(';')
  {
  }

  lemma BlankNothing()
    ensures Blank("")
  {
  }

  lemma NoAttributes(num: Parser)
    ensures Attributes(num, ONE, []) == ONE
  {
  }

  lemma CommasOutside(i: Item)
    requires Printable(i)
    ensures ',' !in PrintItem(i)
  {
    hide Blank, IsWhite, PrintWeight;
    SeparatorsAreNotWhite();
    BlankHasNo(i.before, ',');
    BlankHasNo(i.middle, ',');
    BlankHasNo(i.after, ',');
    if i.weight.Some? {
      PrintedWeight(i.weight.value);
    }
  }

  function PrintItems(items: seq<Item>): seq<string> {
    seq(|items|, k requires 0 <= k < |items| => PrintItem(items[k]))
  }

  /** Any header a client may print from codings and weights is read back as it was meant: the codings
      in lower case, each with its weight or 1, in order, whatever the white space. */
  lemma PrintedHeader(num: Parser, items: seq<Item>)
    requires items != [] && forall k :: 0 <= k < |items| ==> Printable(items[k])
    ensures WeighAll(num, Split(Join(PrintItems(items), ','), ','))
         == seq(|items|, k requires 0 <= k < |items| => Said(num, items[k]))
  {
    hide Split, Join, Printable, PrintItem, Weigh, Said;
    var texts := PrintItems(items);
    forall k | 0 <= k < |items|
      ensures ',' !in texts[k] && Weigh(num, texts[k]) == Said(num, items[k])
    {
      PrintedItem(num, items[k]);
    }
    SplitJoin(texts, ',');
  }

  // ---------------------------------------------------------------- dropped entries

  lemma NamedSnoc(ws: seq<Weighted>, w: Weighted)
    ensures Named([]) == []
    ensures Named(ws + [w]) == Named(ws) + Kept(w)
  {
    assert (ws + [w])[..|ws|] == ws;
  }

  lemma {:induction false} NamedAppend(a: seq<Weighted>, b: seq<Weighted>)
    ensures Named(a + b) == Named(a) + Named(b)
    decreases |b|
  {
    hide *;
    if b == [] {
      NamedSnoc([], Weighted("", NaN));
      assert a + b == a && Named(a) + [] == Named(a);
    } else {
      var rest, w := b[..|b| - 1], b[|b| - 1];
      NamedAppend(a, rest);
      Associative(a, rest, [w]);
      assert b == rest + [w];
      NamedSnoc(a + rest, w);
      NamedSnoc(rest, w);
      Associative(Named(a), Named(rest), Kept(w));
    }
  }

  lemma {:induction false} NamedKeepsQualities(ws: seq<Weighted>, coding: string)
    requires coding != ""
    ensures LastQuality(Named(ws), coding) == LastQuality(ws, coding)
  {
    if ws != [] {
      var n := |ws| - 1;
      NamedKeepsQualities(ws[..n], coding);
      if ws[n].coding != "" {
        assert Named(ws)[..|Named(ws)| - 1] == Named(ws[..n]);
      } else {
        assert Named(ws) == Named(ws[..n]);
      }
    }
  }

  lemma {:induction false} DroppedEntriesDoNotMatter(supported: seq<string>, ws: seq<Weighted>)
    requires "" !in supported
    ensures Preferred(supported, Named(ws)) == Preferred(supported, ws)
  {
    if supported != [] {
      assert supported[0] in supported && Lower(supported[0]) != "";
      NamedKeepsQualities(ws, Lower(supported[0]));
      NamedKeepsQualities(ws, "*");
      DroppedEntriesDoNotMatter(supported[1..], ws);
    }
  }

  /** `negotiate` agrees with choosing from the parsed list, whenever no candidate is empty. */
  method NegotiateMatchesParsed(num: Parser, supported: seq<string>, header: string) returns (r: Option<string>)
    requires "" !in supported
    ensures r == Preferred(supported, ParseAcceptEncodings(num, header))
  {
    r := Negotiate(num, supported, header);
    DroppedEntriesDoNotMatter(supported, WeighAll(num, Split(header, ',')));
  }

  lemma EmptyHeader(num: Parser)
    ensures WeighAll(num, Split("", ',')) == [Weighted("", ONE)]
    ensures ParseAcceptEncodings(num, "") == []
  {
    assert Split("", ',') == [""];
    assert Segments("") == [""] && Lower("") == "" && [""][1..] == [];
    var ws := WeighAll(num, Split("", ','));
    assert ws == [Weighted("", ONE)];
    assert ws[..0] == [];
    assert Named(ws) == Named(ws[..0]);
  }

  lemma {:induction false} EmptyHeaderNamesOnlyTheEmpty(supported: seq<string>)
    ensures Preferred(supported, []) == None
    ensures Preferred(supported, [Weighted("", ONE)]) == if "" in supported then Some("") else None
  {
    if supported != [] {
      EmptyHeaderNamesOnlyTheEmpty(supported[1..]);
      var ws := [Weighted("", ONE)];
      assert ws[..0] == [];
      assert Lower("") == "";
      assert supported == [supported[0]] + supported[1..];
    }
  }

  /** The two readings agree on every header exactly when no candidate is empty: an empty header
      names the empty coding to `negotiate`, and nothing at all to the parsed list. */
  lemma AgreementIff(num: Parser, supported: seq<string>)
    ensures (forall h: string ::
               Preferred(supported, WeighAll(num, Split(h, ','))) == Preferred(supported, ParseAcceptEncodings(num, h)))
       <==> "" !in supported
  {
    EmptyHeader(num);
    EmptyHeaderNamesOnlyTheEmpty(supported);
    if "" !in supported {
      forall h: string
        ensures Preferred(supported, WeighAll(num, Split(h, ','))) == Preferred(supported, ParseAcceptEncodings(num, h))
      {
        DroppedEntriesDoNotMatter(supported, WeighAll(num, Split(h, ',')));
      }
    } else {
      var h := "";
      assert Preferred(supported, WeighAll(num, Split(h, ','))) != Preferred(supported, ParseAcceptEncodings(num, h));
    }
  }

  // ---------------------------------------------------------------- several header lines

  /** `combined_accept_encoding`; a value that is not visible ASCII is `None` and skipped. */
  method CombinedAcceptEncoding(values: seq<Option<string>>) returns (combined: string)
    ensures combined == Combined(values)
  {
    combined := "";
    assert values[..0] == [];
    for i := 0 to |values|
      invariant combined == Combined(values[..i])
    {
      assert values[..i + 1][..i] == values[..i];
      if values[i].Some? {
        if combined != "" {
          combined := combined + ", ";
        }
        combined := combined + values[i].value;
      }
    }
    assert values[..|values|] == values;
  }

  function Combined(values: seq<Option<string>>): string {
    if values == [] then ""
    else
      var n := |values| - 1;
      var before := Combined(values[..n]);
      if values[n].None? then before
      else if before == "" then before + values[n].value
      else before + ", " + values[n].value
  }

  function ParseLines(num: Parser, values: seq<Option<string>>): seq<Weighted> {
    if values == [] then []
    else
      var n := |values| - 1;
      ParseLines(num, values[..n])
      + (if values[n].Some? then ParseAcceptEncodings(num, values[n].value) else [])
  }

  lemma WeighAllAppend(num: Parser, a: seq<string>, b: seq<string>)
    ensures WeighAll(num, a + b) == WeighAll(num, a) + WeighAll(num, b)
  {
  }

  lemma {:induction false} LeadingSpaceDoesNotMatter(num: Parser, s: string)
    ensures WeighAll(num, Split(" " + s, ',')) == WeighAll(num, Split(s, ','))
  {
    var a, b := Split(" " + s, ','), Split(s, ',');
    assert (" " + s)[1..] == s;
    assert a == [[' '] + b[0]] + b[1..];
    TrimLeadingSpace(b[0]);
    forall i | 0 <= i < |a|
      ensures Weigh(num, a[i]) == Weigh(num, b[i])
    {
      if i > 0 { assert a[i] == b[i]; } else { assert a[0] == " " + b[0]; }
    }
  }

  lemma ParseJoined(num: Parser, a: string, b: string)
    ensures ParseAcceptEncodings(num, a + ", " + b) == ParseAcceptEncodings(num, a) + ParseAcceptEncodings(num, b)
  {
    assert a + ", " + b == a + [','] + (" " + b);
    SplitAppend(a, ',', " " + b);
    WeighAllAppend(num, Split(a, ','), Split(" " + b, ','));
    LeadingSpaceDoesNotMatter(num, b);
    NamedAppend(WeighAll(num, Split(a, ',')), WeighAll(num, Split(b, ',')));
  }

  /** Folding the header lines into one loses nothing and invents nothing: parsing the folded
      header gives the lines' entries, in order. */
  lemma {:induction false} CombinedParses(num: Parser, values: seq<Option<string>>)
    ensures ParseAcceptEncodings(num, Combined(values)) == ParseLines(num, values)
  {
    hide ParseAcceptEncodings;
    EmptyHeader(num);
    if values != [] {
      var n := |values| - 1;
      CombinedParses(num, values[..n]);
      if values[n].Some? {
        ParseJoined(num, Combined(values[..n]), values[n].value);
        assert "" + values[n].value == values[n].value;
        assert [] + ParseAcceptEncodings(num, values[n].value) == ParseAcceptEncodings(num, values[n].value);
      }
    }
  }

  // ---------------------------------------------------------------- one coding at a time

  function FirstAccepted(names: seq<string>, ws: seq<Weighted>): Option<string> {
    if names == [] then None
    else if Preferred([names[0]], ws).Some? then Some(names[0])
    else FirstAccepted(names[1..], ws)
  }

  lemma SingleQuestion(name: string, ws: seq<Weighted>)
    ensures Preferred([name], ws) == if Acceptable(ws, name) then Some(name) else None
  {
    assert [name][1..] == [];
    assert Preferred([name][1..], ws) == None;
  }

  /** Asking about one coding at a time, in priority order, finds what asking about all finds. */
  lemma {:induction false} OneAtATime(names: seq<string>, ws: seq<Weighted>)
    ensures FirstAccepted(names, ws) == Preferred(names, ws)
  {
    if names != [] {
      OneAtATime(names[1..], ws);
      SingleQuestion(names[0], ws);
    }
  }

  /** `accepted_precompressed` */
  method AcceptedPrecompressed(num: Parser, values: seq<Option<string>>, wantBr: bool, wantGzip: bool)
    returns (br: bool, gzip: bool)
    ensures br <==> wantBr && Acceptable(ParseLines(num, values), "br")
    ensures gzip <==> wantGzip && Acceptable(ParseLines(num, values), "gzip")
  {
    hide ParseAcceptEncodings, Acceptable, ParseLines;
    if !(wantBr || wantGzip) {
      return false, false;
    }
    var combined := CombinedAcceptEncoding(values);
    CombinedParses(num, values);
    var b := NegotiateMatchesParsed(num, ["br"], combined);
    var g := NegotiateMatchesParsed(num, ["gzip"], combined);
    SingleQuestion("br", ParseLines(num, values));
    SingleQuestion("gzip", ParseLines(num, values));
    return wantBr && b.Some?, wantGzip && g.Some?;
  }

  datatype Encoding = Zstd | Br | Gzip | Deflate

  /** The codings a compression layer offers, best first. */
  function Offered(zstd: bool, br: bool, gzip: bool, deflate: bool): seq<(bool, string, Encoding)> {
    [(zstd, "zstd", Zstd), (br, "br", Br), (gzip, "gzip", Gzip), (deflate, "deflate", Deflate)]
  }

  function EnabledNames(offers: seq<(bool, string, Encoding)>): seq<string> {
    if offers == [] then []
    else (if offers[0].0 then [offers[0].1] else []) + EnabledNames(offers[1..])
  }

  function NameOf(e: Encoding): string {
    match e case Zstd => "zstd" case Br => "br" case Gzip => "gzip" case Deflate => "deflate"
  }

  lemma BestFirst(zstd: bool, br: bool, gzip: bool, deflate: bool, ws: seq<Weighted>)
    ensures Preferred(EnabledNames(Offered(zstd, br, gzip, deflate)), ws)
         == if zstd && Acceptable(ws, "zstd") then Some("zstd")
            else if br && Acceptable(ws, "br") then Some("br")
            else if gzip && Acceptable(ws, "gzip") then Some("gzip")
            else if deflate && Acceptable(ws, "deflate") then Some("deflate") else None
  {
    hide Acceptable;
    var offers := Offered(zstd, br, gzip, deflate);
    OfferChoice(offers, ws);
    OfferChoice(offers[1..], ws);
    OfferChoice(offers[2..], ws);
    OfferChoice(offers[3..], ws);
    assert offers[1..][1..] == offers[2..] && offers[2..][1..] == offers[3..] && offers[3..][1..] == [];
  }

  lemma OfferChoice(offers: seq<(bool, string, Encoding)>, ws: seq<Weighted>)
    requires offers != []
    ensures Preferred(EnabledNames(offers), ws)
         == if offers[0].0 && Acceptable(ws, offers[0].1) then Some(offers[0].1)
            else Preferred(EnabledNames(offers[1..]), ws)
  {
    hide Acceptable;
    var rest := EnabledNames(offers[1..]);
    if offers[0].0 {
      assert ([offers[0].1] + rest)[1..] == rest;
    } else {
      assert [] + rest == rest;
    }
  }

  /** `preferred_encoding`: the layer's loop of single questions picks what one negotiation over
      its enabled codings would. */
  method PreferredEncoding(num: Parser, zstd: bool, br: bool, gzip: bool, deflate: bool, header: string)
    returns (r: Option<Encoding>)
    ensures (if r.Some? then Some(NameOf(r.value)) else None)
         == Preferred(EnabledNames(Offered(zstd, br, gzip, deflate)), ParseAcceptEncodings(num, header))
    ensures var ws := ParseAcceptEncodings(num, header);
      var z, b, g := zstd && Acceptable(ws, "zstd"), br && Acceptable(ws, "br"), gzip && Acceptable(ws, "gzip");
      r == if z then Some(Zstd) else if b then Some(Br) else if g then Some(Gzip)
           else if deflate && Acceptable(ws, "deflate") then Some(Deflate) else None
  {
    BestFirst(zstd, br, gzip, deflate, ParseAcceptEncodings(num, header));
    hide ParseAcceptEncodings, Acceptable;
    var offers := Offered(zstd, br, gzip, deflate);
    ghost var ws := ParseAcceptEncodings(num, header);
    for i := 0 to |offers|
      invariant Preferred(EnabledNames(offers), ws) == Preferred(EnabledNames(offers[i..]), ws)
    {
      var (enabled, name, encoding) := offers[i];
      assert offers[i..][0] == offers[i] && offers[i..][1..] == offers[i + 1..];
      assert name == NameOf(encoding) && name != "";
      if enabled {
        var one := NegotiateMatchesParsed(num, [name], header);
        SingleQuestion(name, ws);
        assert EnabledNames(offers[i..]) == [name] + EnabledNames(offers[i + 1..]);
        if one.Some? {
          return Some(encoding);
        }
        assert EnabledNames(offers[i..])[1..] == EnabledNames(offers[i + 1..]);
      } else {
        assert EnabledNames(offers[i..]) == EnabledNames(offers[i + 1..]);
      }
    }
    return None;
  }
}
