/** Environment overrides of the configuration tree (arvik-config/src/lib.rs). */
module ConfigEnv {
  import opened Wrappers
  import opened Sequences
  import opened Text
  import opened Decimal
  import opened ConfigTree

  // ---------------------------------------------------------------- the schema

  datatype Kind = Words | Flag | U16 | U32 | U64 | Usize

  /** The largest value of a numeric kind; `usize` is that of a 64-bit target. */
  function MaxOf(kind: Kind): nat {
    match kind case U16 => 0xFFFF case U32 => 0xFFFF_FFFF case _ => U64_MAX
  }

  function TypeName(kind: Kind): string {
    match kind
    case Words => "string"
    case Flag => "boolean value"
    case U16 => "u16"
    case U32 => "u32"
    case U64 => "u64"
    case Usize => "usize"
  }

  datatype Setting = Setting(section: string, field: string, kind: Kind)

  function Settings(): seq<Setting> {
    [
      Setting("server", "host", Words),
      Setting("server", "port", U16),
      Setting("server", "workers", Usize),
      Setting("server", "backlog", U32),
      Setting("server", "max_connections", Usize),
      Setting("server", "body_limit", Usize),
      Setting("server", "tcp_nodelay", Flag),
      Setting("server", "tcp_keepalive_secs", U64),
      Setting("server", "tcp_keepalive_interval_secs", U64),
      Setting("server", "tcp_keepalive_retries", U32),
      Setting("server", "reuse_port", Flag),
      Setting("server", "reuse_address", Flag),
      Setting("server", "socket_recv_buffer_size", Usize),
      Setting("server", "socket_send_buffer_size", Usize),
      Setting("server", "accept_workers", Usize),
      Setting("http1", "keep_alive", Flag),
      Setting("http1", "half_close", Flag),
      Setting("http1", "title_case_headers", Flag),
      Setting("http1", "preserve_header_case", Flag),
      Setting("http1", "pipeline_flush", Flag),
      Setting("http2", "only", Flag),
      Setting("http2", "adaptive_window", Flag),
      Setting("http2", "initial_stream_window_size", U32),
      Setting("http2", "initial_connection_window_size", U32),
      Setting("http2", "max_concurrent_streams", U32),
      Setting("http2", "keep_alive_interval_secs", U64),
      Setting("http2", "keep_alive_timeout_secs", U64),
      Setting("http2", "max_frame_size", U32),
      Setting("http2", "max_send_buf_size", Usize),
      Setting("http2", "max_header_list_size", U32),
      Setting("tls", "backend", Words),
      Setting("tls", "cert_path", Words),
      Setting("tls", "key_path", Words),
      Setting("tls", "pkcs12_path", Words),
      Setting("tls", "pkcs12_password", Words),
      Setting("shutdown", "drain_timeout_secs", U64)
    ]
  }

  function UpperChar(c: char): char {
    if 'a' <= c <= 'z' then c - 'a' + 'A' else c
  }

  function Upper(s: string): string {
    seq(|s|, i requires 0 <= i < |s| => UpperChar(s[i]))
  }

  /** The name a setting has in the environment, behind the prefix: its path in capitals, as in
      SERVER_MAX_CONNECTIONS. */
  function SuffixOf(section: string, field: string): string { Upper(section) + "_" + Upper(field) }

  /** Letter by letter, with an underscore between section and field. */
  lemma SuffixLetters(section: string, field: string)
    ensures var s := SuffixOf(section, field);
      && |s| == |section| + 1 + |field| && s[|section|] == '_'
      && (forall i :: 0 <= i < |section| ==> s[i] == UpperChar(section[i]))
      && (forall i :: 0 <= i < |field| ==> s[|section| + 1 + i] == UpperChar(field[i]))
  {
  }

  lemma UpperTable(c: char)
    ensures |UPPER| == |LOWER| && forall i :: 0 <= i < |LOWER| ==> UpperChar(LOWER[i]) == UPPER[i]
    ensures c !in LOWER ==> UpperChar(c) == c
  {
    hide UPPER, LOWER;
    Letters();
    if 'a' <= c <= 'z' {
      assert LOWER[c as int - 0x61] == c;
    }
  }

  function Find(settings: seq<Setting>, suffix: string): (r: Option<Setting>)
    ensures r.Some? ==> r.value in settings && SuffixOf(r.value.section, r.value.field) == suffix
    ensures r.None? ==> forall s :: s in settings ==> SuffixOf(s.section, s.field) != suffix
  {
    if settings == [] then None
    else if SuffixOf(settings[0].section, settings[0].field) == suffix then Some(settings[0])
    else Find(settings[1..], suffix)
  }

  datatype ConfigError = Env(variable: string, message: string) | Validation(unknown: seq<string>)

  /** `parse_bool`; `None` is the error. */
  function ParseBool(value: string): Option<bool> {
    var v := Lower(value);
    if v == "true" || v == "1" || v == "yes" || v == "on" then Some(true)
    else if v == "false" || v == "0" || v == "no" || v == "off" then Some(false)
    else None
  }

  /** The values a setting of a kind can have. */
  predicate Fits(kind: Kind, v: Value) {
    match kind
    case Words => v.Str?
    case Flag => v.Bool?
    case _ => v.Number? && 0 <= v.n <= MaxOf(kind)
  }

  /** The value a setting takes from a variable, or why it cannot. */
  function ParseValue(kind: Kind, name: string, value: string): (r: Result<Value, ConfigError>)
    ensures r.Success? ==> Fits(kind, r.value)
    ensures kind == Words ==> r == Success(Str(value))
    ensures r.Failure? ==> r.error.Env? && r.error.variable == name
  {
    match kind
    case Words => Success(Str(value))
    case Flag =>
      (match ParseBool(value)
       case Some(b) => Success(Bool(b))
       case None => Failure(Env(name, "expected " + TypeName(kind))))
    case _ =>
      (match Parse(value, MaxOf(kind))
       case Some(n) => Success(Number(n))
       case None => Failure(Env(name, "expected " + TypeName(kind))))
  }

  predicate IsOneOf(value: string, words: seq<string>) {
    exists i :: 0 <= i < |words| && EqIgnoreCase(value, words[i])
  }

  lemma LowerWords()
    ensures Lower("true") == "true" && Lower("1") == "1" && Lower("yes") == "yes" && Lower("on") == "on"
    ensures Lower("false") == "false" && Lower("0") == "0" && Lower("no") == "no" && Lower("off") == "off"
  {
  }

  /** Four words are true and four are false, in any case, and no others are boolean. */
  lemma BoolWords(value: string)
    ensures ParseBool(value) == Some(true) <==> IsOneOf(value, ["true", "1", "yes", "on"])
    ensures ParseBool(value) == Some(false) <==> IsOneOf(value, ["false", "0", "no", "off"])
  {
    hide Lower;
    LowerWords();
    var yes, no := ["true", "1", "yes", "on"], ["false", "0", "no", "off"];
    assert yes[0] == "true" && yes[1] == "1" && yes[2] == "yes" && yes[3] == "on";
    assert no[0] == "false" && no[1] == "0" && no[2] == "no" && no[3] == "off";
  }

  /** What a variable's text means: a string is taken as it is, a flag is one of the words above, and a
      number is any numeral of a number that the setting's type holds. */
  lemma ValueMeans(kind: Kind, name: string, value: string, n: nat)
    ensures kind.Words? ==> ParseValue(kind, name, value) == Success(Str(value))
    ensures kind.Flag? ==>
      && (ParseValue(kind, name, value) == Success(Bool(true)) <==> IsOneOf(value, ["true", "1", "yes", "on"]))
      && (ParseValue(kind, name, value) == Success(Bool(false)) <==> IsOneOf(value, ["false", "0", "no", "off"]))
    ensures !kind.Words? && !kind.Flag? ==>
      (ParseValue(kind, name, value) == Success(Number(n))
       <==> n <= MaxOf(kind) && exists plus, zeros :: value == Numeral(plus, zeros, n))
  {
    hide ParseBool, Parse, Numeral, IsOneOf;
    BoolWords(value);
    ParseIff(value, MaxOf(kind), n);
  }

  /** `suffix_starts_with_known_section` */
  predicate InKnownSection(suffix: string) {
    Lower(Split(suffix, '_')[0]) in {"server", "http1", "http2", "shutdown", "tls"}
  }

  /** The section is what stands before the first underscore, if there is one. */
  lemma KnownSectionIff(section: string, rest: string)
    requires '_' !in section
    ensures InKnownSection(section) <==> Lower(section) in {"server", "http1", "http2", "shutdown", "tls"}
    ensures InKnownSection(section + "_" + rest) <==> InKnownSection(section)
  {
    SplitWhole(section, '_');
    SplitFirst(section, '_', rest);
  }

  // ---------------------------------------------------------------- one variable

  /** An entry of the environment; `None` where it is not UTF-8. */
  datatype Variable = Variable(name: Option<string>, value: Option<string>)

  datatype Override = Override(section: string, field: string, value: Value)

  /** `o` is for a setting with this suffix, and its value is the text read as that setting's kind. */
  ghost predicate IsOverrideFor(settings: seq<Setting>, suffix: string, name: string, value: string, o: Override) {
    exists s :: s in settings && SuffixOf(s.section, s.field) == suffix
      && o.section == s.section && o.field == s.field
      && Fits(s.kind, o.value) && ParseValue(s.kind, name, value) == Success(o.value)
  }

  /** The text cannot be read as the kind of a setting with this suffix. */
  ghost predicate RejectsFor(settings: seq<Setting>, suffix: string, name: string, value: string, error: ConfigError) {
    exists s :: s in settings && SuffixOf(s.section, s.field) == suffix
      && ParseValue(s.kind, name, value) == Failure(error)
  }

  /** No setting is spelled like this. */
  ghost predicate Unspelled(settings: seq<Setting>, suffix: string) {
    forall s :: s in settings ==> SuffixOf(s.section, s.field) != suffix
  }

  /** Which path a variable sets to what, by a table of settings. */
  function ParseWith(settings: seq<Setting>, suffix: string, name: string, value: string)
    : (r: Result<Option<Override>, ConfigError>)
    ensures r.Failure? ==> r.error.Env? && r.error.variable == name
    ensures r == Success(None) <==> Unspelled(settings, suffix)
    ensures r.Success? && r.value.Some? ==> IsOverrideFor(settings, suffix, name, value, r.value.value)
    ensures r.Failure? ==> RejectsFor(settings, suffix, name, value, r.error)
    ensures r.Success? && r.value.Some? ==>
      !r.value.value.value.Object? && SuffixOf(r.value.value.section, r.value.value.field) == suffix
  {
    match Find(settings, suffix)
    case None => Success(None)
    case Some(setting) =>
      (match ParseValue(setting.kind, name, value)
       case Success(v) => Success(Some(Override(setting.section, setting.field, v)))
       case Failure(error) => Failure(error))
  }

  /** `parse_env_override`. It has no answer exactly for the suffixes that no setting spells. */
  function ParseEnvOverride(suffix: string, name: string, value: string): (r: Result<Option<Override>, ConfigError>)
    ensures r.Failure? ==> r.error.Env? && r.error.variable == name
    ensures r == Success(None) <==> Unspelled(Settings(), suffix)
    ensures r.Success? && r.value.Some? ==> IsOverrideFor(Settings(), suffix, name, value, r.value.value)
    ensures r.Failure? ==> RejectsFor(Settings(), suffix, name, value, r.error)
    ensures r.Success? && r.value.Some? ==>
      !r.value.value.value.Object? && SuffixOf(r.value.value.section, r.value.value.field) == suffix
  {
    hide *;
    ParseWith(Settings(), suffix, name, value)
  }

  datatype Reading = Ignored | Unknown(name: string) | Invalid(error: ConfigError) | Sets(o: Override)

  function TrimUnderscores(s: string): string {
    if s != "" && s[|s| - 1] == '_' then TrimUnderscores(s[..|s| - 1]) else s
  }

  function FullPrefix(prefix: string): string { TrimUnderscores(prefix) + "_" }

  /** What a variable means to the configuration; `full` is the prefix with its underscore. */
  function Read(full: string, v: Variable): (r: Reading)
    ensures r.Invalid? ==> r.error.Env? && v.name == Some(r.error.variable)
    ensures r.Unknown? ==> v.name == Some(r.name)
    ensures r.Sets? ==> v.name == Some(full + SuffixOf(r.o.section, r.o.field)) && !r.o.value.Object?
  {
    hide ParseEnvOverride;
    if v.name.None? || v.value.None? || !StartsWith(v.name.value, full) then Ignored
    else
      var suffix := v.name.value[|full|..];
      assert v.name.value == full + suffix;
      match ParseEnvOverride(suffix, v.name.value, v.value.value)
      case Failure(error) => Invalid(error)
      case Success(Some(o)) => Sets(o)
      case Success(None) => if InKnownSection(suffix) then Unknown(v.name.value) else Ignored
  }

  lemma ReadCases(full: string, v: Variable)
    ensures v.name.None? || v.value.None? || !StartsWith(v.name.value, full) ==> Read(full, v) == Ignored
    ensures v.name.Some? && v.value.Some? && StartsWith(v.name.value, full) ==>
      |full| <= |v.name.value|
      && var suffix := v.name.value[|full|..];
      var parsed := ParseEnvOverride(suffix, v.name.value, v.value.value);
      && (parsed.Failure? ==> Read(full, v) == Invalid(parsed.error))
      && (parsed.Success? && parsed.value.Some? ==> Read(full, v) == Sets(parsed.value.value))
      && (parsed.Success? && parsed.value.None? ==>
            Read(full, v) == if InKnownSection(suffix) then Unknown(v.name.value) else Ignored)
  {
    hide ParseEnvOverride, InKnownSection;
  }

  /** The prefix ends in one underscore, however many it was given with. */
  lemma {:induction false} OneUnderscore(name: string, underscores: nat, prefix: string)
    requires name == "" || name[|name| - 1] != '_'
    requires |prefix| == |name| + underscores && prefix[..|name|] == name
    requires forall i :: |name| <= i < |prefix| ==> prefix[i] == '_'
    ensures FullPrefix(prefix) == name + "_"
  {
    if underscores > 0 {
      OneUnderscore(name, underscores - 1, prefix[..|prefix| - 1]);
    } else {
      assert prefix == name;
    }
  }

  /** A variable without the prefix, or that is not UTF-8, is left alone. One behind it that no setting
      spells is reported if it names a known section, and left alone if it does not; and one that a setting
      spells sets it or is reported for its value. */
  lemma ReadByName(full: string, suffix: string, value: string)
    ensures forall v: Variable :: v.name.None? || v.value.None? || !(full <= v.name.value) ==> Read(full, v) == Ignored
    ensures var r := Read(full, Variable(Some(full + suffix), Some(value)));
      && (r == Unknown(full + suffix) <==> Unspelled(Settings(), suffix) && InKnownSection(suffix))
      && (r == Ignored <==> Unspelled(Settings(), suffix) && !InKnownSection(suffix))
      && (r.Sets? ==> IsOverrideFor(Settings(), suffix, full + suffix, value, r.o))
      && (r.Invalid? ==> RejectsFor(Settings(), suffix, full + suffix, value, r.error))
  {
    hide *;
    forall v: Variable | v.name.None? || v.value.None? || !(full <= v.name.value)
      ensures Read(full, v) == Ignored
    {
      ReadCases(full, v);
      assert v.name.Some? ==> (StartsWith(v.name.value, full) <==> full <= v.name.value) by { Prefixes(v, full); }
    }
    var v := Variable(Some(full + suffix), Some(value));
    ReadCases(full, v);
    Prefixes(v, full);
    assert v.name.value[|full|..] == suffix && full <= v.name.value;
  }

  lemma Prefixes(v: Variable, full: string)
    ensures v.name.Some? ==> (StartsWith(v.name.value, full) <==> full <= v.name.value)
  {
  }

  // ---------------------------------------------------------------- the whole environment

  function OverrideOf(r: Reading): seq<Override> { if r.Sets? then [r.o] else [] }

  function UnknownOf(r: Reading): seq<string> { if r.Unknown? then [r.name] else [] }

  function Overrides(full: string, vars: seq<Variable>): seq<Override> {
    if vars == [] then []
    else Overrides(full, vars[..|vars| - 1]) + OverrideOf(Read(full, vars[|vars| - 1]))
  }

  function Unknowns(full: string, vars: seq<Variable>): seq<string> {
    if vars == [] then []
    else Unknowns(full, vars[..|vars| - 1]) + UnknownOf(Read(full, vars[|vars| - 1]))
  }

  /** The error of the first value that does not parse. */
  function FirstInvalid(full: string, vars: seq<Variable>): Option<ConfigError> {
    if vars == [] then None
    else
      var before := FirstInvalid(full, vars[..|vars| - 1]);
      var r := Read(full, vars[|vars| - 1]);
      if before.Some? then before else if r.Invalid? then Some(r.error) else None
  }

  /** What reading the whole environment reports: that error, or else all unknown names. */
  function EnvError(full: string, vars: seq<Variable>): Option<ConfigError> {
    if FirstInvalid(full, vars).Some? then FirstInvalid(full, vars)
    else if Unknowns(full, vars) != [] then Some(Validation(Unknowns(full, vars)))
    else None
  }

  function SetAll(root: Value, overrides: seq<Override>): Value {
    if overrides == [] then root
    else
      var n := |overrides| - 1;
      SetPath(SetAll(root, overrides[..n]), [overrides[n].section, overrides[n].field], overrides[n].value)
  }

  lemma NothingRead(root: Value, full: string, vars: seq<Variable>)
    ensures SetAll(root, Overrides(full, vars[..0])) == root && Unknowns(full, vars[..0]) == []
    ensures FirstInvalid(full, vars[..0]) == None
    ensures vars[..|vars|] == vars
  {
    hide Read;
  }

  lemma OneMoreVariable(full: string, vars: seq<Variable>, i: nat)
    requires i < |vars|
    ensures var r := Read(full, vars[i]); var before := Overrides(full, vars[..i]);
      Overrides(full, vars[..i + 1]) == if r.Sets? then before + [r.o] else before
    ensures var r := Read(full, vars[i]); var before := Unknowns(full, vars[..i]);
      Unknowns(full, vars[..i + 1]) == if r.Unknown? then before + [r.name] else before
    ensures var r := Read(full, vars[i]); var before := FirstInvalid(full, vars[..i]);
      FirstInvalid(full, vars[..i + 1])
      == if before.Some? then before else if r.Invalid? then Some(r.error) else None
  {
    hide Read;
    assert vars[..i + 1][..i] == vars[..i] && vars[..i + 1][i] == vars[i];
  }

  lemma {:induction false} FirstInvalidStays(full: string, vars: seq<Variable>, i: nat)
    requires i <= |vars| && FirstInvalid(full, vars[..i]).Some?
    ensures FirstInvalid(full, vars) == FirstInvalid(full, vars[..i])
    decreases |vars| - i
  {
    if i == |vars| {
      assert vars[..i] == vars;
    } else {
      OneMoreVariable(full, vars, i);
      FirstInvalidStays(full, vars, i + 1);
    }
  }

  lemma OneMoreOverride(root: Value, overrides: seq<Override>, o: Override)
    ensures SetAll(root, overrides + [o]) == SetPath(SetAll(root, overrides), [o.section, o.field], o.value)
  {
    assert (overrides + [o])[..|overrides|] == overrides;
  }

  lemma EnvErrorIs(full: string, vars: seq<Variable>)
    ensures EnvError(full, vars)
         == if FirstInvalid(full, vars).Some? then FirstInvalid(full, vars)
            else if Unknowns(full, vars) != [] then Some(Validation(Unknowns(full, vars)))
            else None
  {
  }

  /** `apply_env`. A value that does not parse ends it at once; names that look like typos are
      collected and reported after every override is in the tree. */
  method ApplyEnv(root: Value, prefix: string, vars: seq<Variable>)
    returns (tree: Value, error: Option<ConfigError>)
    ensures error == EnvError(FullPrefix(prefix), vars)
    ensures FirstInvalid(FullPrefix(prefix), vars).None? ==> tree == SetAll(root, Overrides(FullPrefix(prefix), vars))
  {
    hide *;
    var full := FullPrefix(prefix);
    tree := root;
    var unknown: seq<string> := [];
    NothingRead(root, full, vars);
    for i := 0 to |vars|
      invariant FirstInvalid(full, vars[..i]).None?
      invariant tree == SetAll(root, Overrides(full, vars[..i]))
      invariant unknown == Unknowns(full, vars[..i])
    {
      OneMoreVariable(full, vars, i);
      var v := vars[i];
      ReadCases(full, v);
      if v.name.None? || v.value.None? {
        continue;
      }
      if !StartsWith(v.name.value, full) {
        continue;
      }
      var suffix := v.name.value[|full|..];
      match ParseEnvOverride(suffix, v.name.value, v.value.value) {
        case Failure(e) =>
          FirstInvalidStays(full, vars, i + 1);
          EnvErrorIs(full, vars);
          return tree, Some(e);
        case Success(Some(o)) =>
          OneMoreOverride(root, Overrides(full, vars[..i]), o);
          tree := SetPathInPlace(tree, [o.section, o.field], o.value);
        case Success(None) =>
          if InKnownSection(suffix) {
            unknown := unknown + [v.name.value];
          }
      }
    }
    EnvErrorIs(full, vars);
    error := if unknown == [] then None else Some(Validation(unknown));
  }

  // ---------------------------------------------------------------- one merge does the same

  /** Section by section, field by field. */
  type Overlay = map<string, map<string, Value>>

  function Put(overlay: Overlay, o: Override): Overlay {
    overlay[o.section := (if o.section in overlay then overlay[o.section] else map[])[o.field := o.value]]
  }

  /** The overlay that a list of overrides spells out. */
  function Spelled(overrides: seq<Override>): Overlay {
    if overrides == [] then map[] else Put(Spelled(overrides[..|overrides| - 1]), overrides[|overrides| - 1])
  }

  function ToTree(overlay: Overlay): Value {
    Object(map section | section in overlay :: Object(overlay[section]))
  }

  predicate AllLeaves(overrides: seq<Override>) {
    forall i :: 0 <= i < |overrides| ==> !overrides[i].value.Object?
  }

  lemma SingleStacks(overlay: Overlay, o: Override)
    requires !o.value.Object?
    ensures Stacks(ToTree(overlay), Spell([o.section, o.field], o.value))
  {
    hide Spell;
    var inner := Object(map[o.field := o.value]);
    SpellTwo(o.section, o.field, o.value);
    if o.section in overlay {
      assert forall v :: Stacks(v, o.value);
      assert Stacks(Object(overlay[o.section]), inner);
    }
  }

  lemma PutIsMerge(overlay: Overlay, o: Override)
    requires !o.value.Object?
    ensures Merge(ToTree(overlay), Spell([o.section, o.field], o.value)) == ToTree(Put(overlay, o))
  {
    hide Spell;
    var single := Spell([o.section, o.field], o.value);
    var inner := Object(map[o.field := o.value]);
    SpellTwo(o.section, o.field, o.value);
    var merged := Merge(ToTree(overlay), single);
    if o.section in overlay {
      MergedMember(ToTree(overlay), single, o.section);
      var section := Object(overlay[o.section]);
      MergedMember(section, inner, o.field);
      assert Merge(section, inner).members == overlay[o.section][o.field := o.value];
    } else {
      MergedMember(ToTree(overlay), single, o.section);
      assert map[][o.field := o.value] == map[o.field := o.value];
    }
    assert merged.members == ToTree(Put(overlay, o)).members;
  }

  /** Setting paths one after the other is one merge with the overlay they spell out; with nothing
      to set, the tree is left alone. */
  lemma {:induction false} OverridesAreOneMerge(root: Value, overrides: seq<Override>)
    requires AllLeaves(overrides)
    ensures SetAll(root, overrides)
         == if overrides == [] then root else Merge(root, ToTree(Spelled(overrides)))
  {
    hide Merge, SetPath, Spell, ToTree, Put, Stacks;
    if overrides != [] {
      var before, o := overrides[..|overrides| - 1], overrides[|overrides| - 1];
      var single := Spell([o.section, o.field], o.value);
      OverridesAreOneMerge(root, before);
      SetPathIsMerge(SetAll(root, before), [o.section, o.field], o.value);
      PutIsMerge(Spelled(before), o);
      SingleStacks(Spelled(before), o);
      if before == [] {
        EmptyOverlay(single);
        assert Merge(ToTree(map[]), single) == single;
      } else {
        MergeAssociative(root, ToTree(Spelled(before)), single);
      }
    }
  }

  lemma EmptyOverlay(v: Value)
    ensures Merge(ToTree(map[]), v) == v
  {
    assert ToTree(map[]).members == map[];
    MergeIntoEmpty(v);
  }

  /** And so setting them all again changes nothing. */
  lemma OverridesTwice(root: Value, overrides: seq<Override>)
    requires AllLeaves(overrides)
    ensures SetAll(SetAll(root, overrides), overrides) == SetAll(root, overrides)
  {
    OverridesAreOneMerge(root, overrides);
    OverridesAreOneMerge(SetAll(root, overrides), overrides);
    if overrides != [] {
      MergeTwice(root, ToTree(Spelled(overrides)));
    }
  }

  // ---------------------------------------------------------------- order does not matter

  /** No two overrides are for one path. */
  predicate PathsDistinct(overrides: seq<Override>) {
    forall i, j :: 0 <= i < j < |overrides| ==>
      overrides[i].section != overrides[j].section || overrides[i].field != overrides[j].field
  }

  function Lookup(overlay: Overlay, section: string, field: string): Option<Value> {
    if section in overlay && field in overlay[section] then Some(overlay[section][field]) else None
  }

  ghost predicate NoEmptySection(overlay: Overlay) {
    forall s :: s in overlay ==> exists f :: f in overlay[s]
  }

  lemma PutLookup(overlay: Overlay, o: Override)
    ensures forall s, f :: Lookup(Put(overlay, o), s, f)
                        == if s == o.section && f == o.field then Some(o.value) else Lookup(overlay, s, f)
    ensures NoEmptySection(overlay) ==> NoEmptySection(Put(overlay, o))
  {
    assert o.field in Put(overlay, o)[o.section];
  }

  lemma {:induction false} SpelledLookup(overrides: seq<Override>)
    requires PathsDistinct(overrides)
    ensures forall s, f, v :: Lookup(Spelled(overrides), s, f) == Some(v) <==> Override(s, f, v) in overrides
    ensures NoEmptySection(Spelled(overrides))
  {
    if overrides != [] {
      var n := |overrides| - 1;
      var before, o := overrides[..n], overrides[n];
      SpelledLookup(before);
      PutLookup(Spelled(before), o);
      assert overrides == before + [o];
      forall p | p in before
        ensures p.section != o.section || p.field != o.field
      {
        var i :| 0 <= i < n && before[i] == p;
        assert overrides[i] == p;
      }
      var overlay := Spelled(overrides);
      assert overlay == Put(Spelled(before), o);
      hide Put, Spelled, Lookup, PathsDistinct;
      forall s, f, v
        ensures Lookup(overlay, s, f) == Some(v) <==> Override(s, f, v) in overrides
      {
        assert Override(s, f, v) in before <==> Lookup(Spelled(before), s, f) == Some(v);
      }
    }
  }

  lemma SameLookupsSameOverlay(x: Overlay, y: Overlay)
    requires NoEmptySection(x) && NoEmptySection(y)
    requires forall s, f :: Lookup(x, s, f) == Lookup(y, s, f)
    ensures x == y
  {
    LookupsIncluded(x, y);
    LookupsIncluded(y, x);
    forall s | s in x
      ensures x[s] == y[s]
    {
      assert x[s].Keys == y[s].Keys;
    }
  }

  lemma LookupsIncluded(x: Overlay, y: Overlay)
    requires NoEmptySection(x)
    requires forall s, f :: Lookup(x, s, f) == Lookup(y, s, f)
    ensures forall s :: s in x ==> s in y
    ensures forall s, f :: s in x && f in x[s] ==> s in y && f in y[s] && x[s][f] == y[s][f]
  {
    forall s, f | s in x && f in x[s]
      ensures s in y && f in y[s] && x[s][f] == y[s][f]
    {
      assert Lookup(x, s, f) == Lookup(y, s, f);
    }
  }

  lemma SameOverridesSameOverlay(a: seq<Override>, b: seq<Override>)
    requires PathsDistinct(a) && PathsDistinct(b)
    requires forall o :: o in a <==> o in b
    ensures Spelled(a) == Spelled(b)
  {
    hide *;
    SpelledLookup(a);
    SpelledLookup(b);
    var x, y := Spelled(a), Spelled(b);
    forall s, f
      ensures Lookup(x, s, f) == Lookup(y, s, f)
    {
      if Lookup(x, s, f).Some? {
        assert Override(s, f, Lookup(x, s, f).value) in a;
      } else if Lookup(y, s, f).Some? {
        assert Override(s, f, Lookup(y, s, f).value) in b;
      }
    }
    SameLookupsSameOverlay(x, y);
  }

  /** One way of listing an environment: the variables of `env` in some order, no name twice. */
  ghost predicate Lists(vars: seq<Variable>, env: set<Variable>) {
    && (forall i, j :: 0 <= i < j < |vars| && vars[i].name.Some? ==> vars[i].name != vars[j].name)
    && (forall v :: v in vars <==> v in env)
  }

  lemma InFront(vars: seq<Variable>)
    requires vars != []
    ensures forall v :: v in vars <==> v in vars[..|vars| - 1] || v == vars[|vars| - 1]
  {
    assert vars == vars[..|vars| - 1] + [vars[|vars| - 1]];
  }

  lemma {:induction false} OverridesRead(full: string, vars: seq<Variable>)
    ensures AllLeaves(Overrides(full, vars))
    ensures forall o :: o in Overrides(full, vars) <==> exists v :: v in vars && Read(full, v) == Sets(o)
  {
    hide Read;
    if vars != [] {
      OverridesRead(full, vars[..|vars| - 1]);
      InFront(vars);
    }
  }

  lemma {:induction false} UnknownsRead(full: string, vars: seq<Variable>)
    ensures forall n :: n in Unknowns(full, vars) <==> exists v :: v in vars && Read(full, v) == Unknown(n)
  {
    hide Read;
    if vars != [] {
      UnknownsRead(full, vars[..|vars| - 1]);
      InFront(vars);
    }
  }

  lemma {:induction false} InvalidRead(full: string, vars: seq<Variable>)
    ensures FirstInvalid(full, vars).Some? <==> exists v :: v in vars && Read(full, v).Invalid?
  {
    hide Read;
    if vars != [] {
      InvalidRead(full, vars[..|vars| - 1]);
      InFront(vars);
    }
  }

  lemma {:induction false} FirstInvalidIsFirst(full: string, vars: seq<Variable>)
    ensures FirstInvalid(full, vars).Some? ==>
      exists i :: 0 <= i < |vars| && Read(full, vars[i]) == Invalid(FirstInvalid(full, vars).value)
                  && forall j :: 0 <= j < i ==> !Read(full, vars[j]).Invalid?
  {
    hide Read;
    if vars != [] {
      var n := |vars| - 1;
      var before := vars[..n];
      FirstInvalidIsFirst(full, before);
      if FirstInvalid(full, before).Some? {
        var i :| 0 <= i < n && Read(full, before[i]) == Invalid(FirstInvalid(full, before).value)
                 && forall j :: 0 <= j < i ==> !Read(full, before[j]).Invalid?;
        forall j | 0 <= j < i ensures !Read(full, vars[j]).Invalid? { assert vars[j] == before[j]; }
        assert vars[i] == before[i];
      } else if Read(full, vars[n]).Invalid? {
        InvalidRead(full, before);
        forall j | 0 <= j < n ensures !Read(full, vars[j]).Invalid? {
          assert vars[j] == before[j] && before[j] in before;
        }
      }
    }
  }

  /** What is reported: the first value that does not parse, and if all parse the names that are unknown,
      all of them. */
  lemma ReportedErrors(full: string, vars: seq<Variable>)
    ensures EnvError(full, vars) == None
       <==> forall v :: v in vars ==> !Read(full, v).Invalid? && !Read(full, v).Unknown?
    ensures EnvError(full, vars).Some? && EnvError(full, vars).value.Env? ==>
      exists i :: 0 <= i < |vars| && Read(full, vars[i]) == Invalid(EnvError(full, vars).value)
                  && forall j :: 0 <= j < i ==> !Read(full, vars[j]).Invalid?
    ensures EnvError(full, vars).Some? && EnvError(full, vars).value.Validation? ==>
      && (forall v :: v in vars ==> !Read(full, v).Invalid?)
      && forall n :: n in EnvError(full, vars).value.unknown <==> exists v :: v in vars && Read(full, v) == Unknown(n)
  {
    hide *;
    EnvErrorIs(full, vars);
    InvalidRead(full, vars);
    UnknownsRead(full, vars);
    FirstInvalidIsFirst(full, vars);
    if FirstInvalid(full, vars).Some? {
      assert FirstInvalid(full, vars).value.Env? by { InvalidIsEnv(full, vars); }
    } else {
      if Unknowns(full, vars) != [] { assert Unknowns(full, vars)[0] in Unknowns(full, vars); }
    }
  }

  lemma {:induction false} InvalidIsEnv(full: string, vars: seq<Variable>)
    ensures FirstInvalid(full, vars).Some? ==> FirstInvalid(full, vars).value.Env?
  {
    hide Read;
    if vars != [] {
      InvalidIsEnv(full, vars[..|vars| - 1]);
    }
  }

  /** A path that differs from all earlier ones keeps the paths distinct. */
  lemma DistinctSnoc(overrides: seq<Override>, o: Override)
    requires PathsDistinct(overrides)
    requires forall p :: p in overrides ==> p.section != o.section || p.field != o.field
    ensures PathsDistinct(overrides + [o])
  {
  }

  function Members(vars: seq<Variable>): set<Variable> { set v | v in vars }

  lemma NamesDiffer(vars: seq<Variable>, env: set<Variable>)
    requires Lists(vars, env) && vars != []
    ensures Lists(vars[..|vars| - 1], Members(vars[..|vars| - 1]))
    ensures forall v :: v in vars[..|vars| - 1] && v.name.Some? ==> v.name != vars[|vars| - 1].name
  {
  }

  lemma {:induction false} PathsReadDistinct(full: string, vars: seq<Variable>, env: set<Variable>)
    requires Lists(vars, env)
    ensures PathsDistinct(Overrides(full, vars))
  {
    hide Read, PathsDistinct, Lists;
    if vars == [] {
      NoPaths();
    } else {
      var before, last := vars[..|vars| - 1], vars[|vars| - 1];
      var r := Read(full, last);
      NamesDiffer(vars, env);
      PathsReadDistinct(full, before, Members(before));
      if r.Sets? {
        OverridesRead(full, before);
        forall p | p in Overrides(full, before)
          ensures p.section != r.o.section || p.field != r.o.field
        {
          var v :| v in before && Read(full, v) == Sets(p);
          assert v.name != last.name;
        }
        DistinctSnoc(Overrides(full, before), r.o);
      } else {
        assert Overrides(full, vars) == Overrides(full, before);
      }
    }
  }

  lemma NoPaths()
    ensures PathsDistinct([])
  {
  }

  /** Whatever order the environment is listed in, the same tree comes out, the same names are
      reported as unknown, and a value fails to parse in all orders or in none. */
  lemma OrderDoesNotMatter(root: Value, full: string, a: seq<Variable>, b: seq<Variable>, env: set<Variable>)
    requires Lists(a, env) && Lists(b, env)
    ensures SetAll(root, Overrides(full, a)) == SetAll(root, Overrides(full, b))
    ensures forall n :: n in Unknowns(full, a) <==> n in Unknowns(full, b)
    ensures FirstInvalid(full, a).Some? <==> FirstInvalid(full, b).Some?
  {
    PathsReadDistinct(full, a, env);
    PathsReadDistinct(full, b, env);
    ReadsIncluded(full, a, b);
    ReadsIncluded(full, b, a);
    hide *;
    SameOverridesSameTree(root, Overrides(full, a), Overrides(full, b));
  }

  lemma SameOverridesSameTree(root: Value, a: seq<Override>, b: seq<Override>)
    requires AllLeaves(a) && AllLeaves(b)
    requires PathsDistinct(a) && PathsDistinct(b)
    requires forall o :: o in a <==> o in b
    ensures SetAll(root, a) == SetAll(root, b)
  {
    hide *;
    SameOverridesSameOverlay(a, b);
    OverridesAreOneMerge(root, a);
    OverridesAreOneMerge(root, b);
    if a != [] { assert a[0] in b; }
    if b != [] { assert b[0] in a; }
  }

  lemma ReadsIncluded(full: string, a: seq<Variable>, b: seq<Variable>)
    requires forall v :: v in a ==> v in b
    ensures AllLeaves(Overrides(full, a))
    ensures forall o :: o in Overrides(full, a) ==> o in Overrides(full, b)
    ensures forall n :: n in Unknowns(full, a) ==> n in Unknowns(full, b)
    ensures FirstInvalid(full, a).Some? ==> FirstInvalid(full, b).Some?
  {
    hide *;
    OverridesRead(full, a);
    OverridesRead(full, b);
    UnknownsRead(full, a);
    UnknownsRead(full, b);
    InvalidRead(full, a);
    InvalidRead(full, b);
  }

  // ---------------------------------------------------------------- all layers

  lemma SpelledAt(overlay: Overlay, path: seq<string>)
    requires |path| >= 2
    ensures Lookup(overlay, path[0], path[1]).None? ==>
      At(ToTree(overlay), path).None? && !Shadows(ToTree(overlay), path)
    ensures |path| == 2 ==> At(ToTree(overlay), path) == Lookup(overlay, path[0], path[1])
  {
    var rest := path[1..];
    assert rest[0] == path[1];
    if path[0] in overlay {
      var section := Object(overlay[path[0]]);
      assert At(ToTree(overlay), path) == At(section, rest);
      assert Shadows(ToTree(overlay), path) <==> Shadows(section, rest);
      if |path| == 2 {
        assert rest[1..] == [];
      }
    }
  }

  /** An overridden setting reads as its variable says; every other path below a section reads as
      it did before. */
  lemma OverridesWin(root: Value, overrides: seq<Override>, path: seq<string>)
    requires AllLeaves(overrides) && PathsDistinct(overrides)
    requires |path| >= 2
    ensures forall v :: Override(path[0], path[1], v) in overrides && |path| == 2 ==>
      At(SetAll(root, overrides), path) == Some(v)
    ensures (forall v :: Override(path[0], path[1], v) !in overrides) ==>
      At(SetAll(root, overrides), path) == At(root, path)
  {
    OverridesAreOneMerge(root, overrides);
    SpelledLookup(overrides);
    SpelledAt(Spelled(overrides), path);
    LookupMerged(root, ToTree(Spelled(overrides)), path);
    forall v | Override(path[0], path[1], v) in overrides
      ensures !v.Object?
    {
      hide At, SetAll, Spelled, ToTree, Shadows, Lookup, PathsDistinct, AllLeaves;
      var i :| 0 <= i < |overrides| && overrides[i] == Override(path[0], path[1], v);
    }
    if Lookup(Spelled(overrides), path[0], path[1]).Some? {
      assert Override(path[0], path[1], Lookup(Spelled(overrides), path[0], path[1]).value) in overrides;
    }
  }

  function Layered(defaults: Value, files: seq<Value>): Value {
    if files == [] then defaults else Merge(Layered(defaults, files[..|files| - 1]), files[|files| - 1])
  }

  /** The layer has nothing to say about the path: no value at it and nothing in its way. */
  predicate Silent(layer: Value, path: seq<string>) { At(layer, path).None? && !Shadows(layer, path) }

  /** The last file that has anything to say about a path decides: its value if that is no object, or
      that there is nothing. Where no file has, the default is read. */
  lemma {:induction false} LastFileWins(defaults: Value, files: seq<Value>, path: seq<string>, k: int)
    requires -1 <= k < |files|
    requires forall j :: k < j < |files| ==> Silent(files[j], path)
    ensures k == -1 ==> At(Layered(defaults, files), path) == At(defaults, path)
    ensures k >= 0 && At(files[k], path).Some? && !At(files[k], path).value.Object? ==>
      At(Layered(defaults, files), path) == At(files[k], path)
    ensures k >= 0 && At(files[k], path).None? && Shadows(files[k], path) ==>
      At(Layered(defaults, files), path) == None
  {
    hide At, Shadows;
    if files != [] {
      var n := |files| - 1;
      var below := Layered(defaults, files[..n]);
      LookupMerged(below, files[n], path);
      if k < n {
        assert Silent(files[n], path);
        LastFileWins(defaults, files[..n], path, k);
      } else if At(files[n], path).Some? && At(below, path).Some? {
        assert !At(files[n], path).value.Object? ==>
          Merge(At(below, path).value, At(files[n], path).value) == At(files[n], path).value;
      }
    }
  }

  datatype Built = Tree(tree: Value) | BadFile(index: nat) | BadEnvironment(error: ConfigError)

  /** `build_inner`, up to the typed configuration: defaults, then each file over what came before,
      then the environment. A file that cannot be loaded is `None`. */
  method Build(defaults: Value, files: seq<Option<Value>>, prefix: string, vars: seq<Variable>) returns (r: Built)
    ensures r.BadFile? <==> exists i :: 0 <= i < |files| && files[i].None?
    ensures r.BadFile? ==> r.index < |files| && files[r.index].None? && forall i :: 0 <= i < r.index ==> files[i].Some?
    ensures !r.BadFile? ==> r.BadEnvironment? == EnvError(FullPrefix(prefix), vars).Some?
    ensures r.BadEnvironment? ==> Some(r.error) == EnvError(FullPrefix(prefix), vars)
    ensures r.Tree? ==>
      r.tree == SetAll(Layered(defaults, seq(|files|, i requires 0 <= i < |files| && files[i].Some? => files[i].value)),
                       Overrides(FullPrefix(prefix), vars))
  {
    hide SetAll, Overrides, Unknowns, FirstInvalid, EnvError, Read, FullPrefix, Merge;
    var merged := defaults;
    ghost var layers: seq<Value> := [];
    for i := 0 to |files|
      invariant forall j :: 0 <= j < i ==> files[j].Some?
      invariant |layers| == i && forall j :: 0 <= j < i ==> layers[j] == files[j].value
      invariant merged == Layered(defaults, layers)
    {
      if files[i].None? {
        return BadFile(i);
      }
      merged := MergeValues(merged, files[i].value);
      assert (layers + [files[i].value])[..i] == layers;
      layers := layers + [files[i].value];
    }
    assert layers == seq(|files|, i requires 0 <= i < |files| && files[i].Some? => files[i].value);
    EnvErrorIs(FullPrefix(prefix), vars);
    var tree, error := ApplyEnv(merged, prefix, vars);
    return if error.Some? then BadEnvironment(error.value) else Tree(tree);
  }
}
