/**
 The environment-file writer: it normalizes a schema, resolves each entry from
 the environment and prints quoted lines that Docker Compose reads back.
 */
module EnvWriter {
  import opened Wrappers

  const MAX_ENTRIES := 200
  const MAX_VALUE_BYTES := 1024 * 1024

  /** A field of a schema entry, as decoded. */
  datatype Json = Null | Boolean(b: bool) | Text(text: string) | Other

  /** A schema entry as decoded; a field that is absent is None. */
  datatype RawEntry =
    | NotAnObject
    | RawEntry(key: Option<Json>, env: Option<Json>, literal: Option<Json>, secret: Option<Json>,
               required: Option<Json>, default: Option<Json>)

  datatype Entry =
    | FromEnv(key: string, source: string, required: bool, secret: bool, default: Option<string>)
    | Literal(key: string, literal: string)

  datatype Metadata = Metadata(key: string, fromEnv: bool, required: bool, secret: bool, present: bool)

  datatype EnvError =
    | BadVersion | BadEntries | BadEntry | BadKey | DuplicateKey | NotExactlyOneSource | NotBoolean | BadSource
    | SecretDefault | SecretLiteral | NotText | TooLong | HasNul | MissingSource

  type Environment = map<string, string>

  // ---- Values ----

  function Utf8Size(s: string): nat {
    if s == [] then 0
    else
      var c := s[|s| - 1] as int;
      Utf8Size(s[..|s| - 1]) + (if c < 0x80 then 1 else if c < 0x800 then 2 else if c < 0x10000 then 3 else 4)
  }

  function Bounded(j: Option<Json>): Result<string, EnvError> {
    if j.None? || !j.value.Text? then Failure(NotText)
    else if Utf8Size(j.value.text) > MAX_VALUE_BYTES then Failure(TooLong)
    else if '\0' in j.value.text then Failure(HasNul)
    else Success(j.value.text)
  }

  predicate IsBounded(s: string) {
    Bounded(Some(Text(s))).Success?
  }

  predicate IsKeyChar(c: char) {
    'A' <= c <= 'Z' || c == '_' || '0' <= c <= '9'
  }

  predicate IsKey(s: string) {
    1 <= |s| <= 128 && !('0' <= s[0] <= '9') && forall c | c in s :: IsKeyChar(c)
  }

  // ---- The schema ----

  /** A boolean field, or its default when it is absent. */
  function Flag(j: Option<Json>, default: bool): Option<bool> {
    if j.None? then Some(default) else if j.value.Boolean? then Some(j.value.b) else None
  }

  function NormalizeEntry(raw: RawEntry, keys: set<string>): Result<Entry, EnvError> {
    if raw.NotAnObject? then Failure(BadEntry)
    else if raw.key.None? || !raw.key.value.Text? || !IsKey(raw.key.value.text) then Failure(BadKey)
    else
      var key := raw.key.value.text;
      var hasEnv := raw.env.Some?;
      var secret, required := Flag(raw.secret, hasEnv), Flag(raw.required, false);
      if key in keys then Failure(DuplicateKey)
      else if hasEnv == raw.literal.Some? then Failure(NotExactlyOneSource)
      else if secret.None? || required.None? then Failure(NotBoolean)
      else if hasEnv then
        if !raw.env.value.Text? || !IsKey(raw.env.value.text) then Failure(BadSource)
        else if secret.value && raw.default.Some? then Failure(SecretDefault)
        else if raw.default.None? || raw.default == Some(Null) then
          Success(FromEnv(key, raw.env.value.text, required.value, secret.value, None))
        else
          var default :- Bounded(raw.default);
          Success(FromEnv(key, raw.env.value.text, required.value, secret.value, Some(default)))
      else if secret.value then Failure(SecretLiteral)
      else
        var literal :- Bounded(raw.literal);
        Success(Literal(key, literal))
  }

  function KeysOf(entries: seq<Entry>): set<string> {
    set e | e in entries :: e.key
  }

  function NormalizeEntries(raws: seq<RawEntry>): Result<seq<Entry>, EnvError> {
    if raws == [] then
      Success([])
    else
      var before :- NormalizeEntries(raws[..|raws| - 1]);
      var entry :- NormalizeEntry(raws[|raws| - 1], KeysOf(before));
      Success(before + [entry])
  }

  /** A schema: whether its version is 1, and its entries if they are a list. */
  datatype Schema = Schema(versionIsOne: bool, entries: Option<seq<RawEntry>>)

  function Normalize(schema: Schema): Result<seq<Entry>, EnvError> {
    if !schema.versionIsOne then Failure(BadVersion)
    else if schema.entries.None? || !(1 <= |schema.entries.value| <= MAX_ENTRIES) then Failure(BadEntries)
    else NormalizeEntries(schema.entries.value)
  }

  method NormalizeSchema(schema: Schema) returns (r: Result<seq<Entry>, EnvError>)
    ensures r == Normalize(schema)
  {
    if !schema.versionIsOne {
      return Failure(BadVersion);
    }
    if schema.entries.None? || !(1 <= |schema.entries.value| <= MAX_ENTRIES) {
      return Failure(BadEntries);
    }
    var raws := schema.entries.value;
    var normalized: seq<Entry> := [];
    var keys: set<string> := {};
    for i := 0 to |raws|
      invariant NormalizeEntries(raws[..i]) == Success(normalized)
      invariant keys == KeysOf(normalized)
    {
      assert raws[..i + 1][..i] == raws[..i];
      var entry := NormalizeEntry(raws[i], keys);
      if entry.Failure? {
        SchemaFailureStays(raws, i + 1);
        return Failure(entry.error);
      }
      assert KeysOf(normalized + [entry.value]) == keys + {entry.value.key};
      keys := keys + {entry.value.key};
      normalized := normalized + [entry.value];
    }
    assert raws[..|raws|] == raws;
    return Success(normalized);
  }

  lemma {:induction false} SchemaFailureStays(raws: seq<RawEntry>, k: nat)
    requires k <= |raws| && NormalizeEntries(raws[..k]).Failure?
    ensures NormalizeEntries(raws) == Failure(NormalizeEntries(raws[..k]).error)
    decreases |raws| - k
  {
    if k < |raws| {
      assert raws[..|raws| - 1][..k] == raws[..k];
      SchemaFailureStays(raws[..|raws| - 1], k);
    } else {
      assert raws[..k] == raws;
    }
  }

  predicate IsGood(e: Entry) {
    && IsKey(e.key)
    && (e.Literal? ==> IsBounded(e.literal))
    && (e.FromEnv? ==> IsKey(e.source) && (e.default.Some? ==> !e.secret && IsBounded(e.default.value)))
  }

  /** What an accepted schema promises: distinct keys, and no value of a secret in the schema itself. */
  lemma {:induction false} AcceptedSchemaIsGood(raws: seq<RawEntry>)
    requires NormalizeEntries(raws).Success?
    ensures var entries := NormalizeEntries(raws).value;
            && |entries| == |raws| && (forall e | e in entries :: IsGood(e))
            && (forall i, j | 0 <= i < j < |entries| :: entries[i].key != entries[j].key)
  {
    if raws != [] {
      AcceptedSchemaIsGood(raws[..|raws| - 1]);
      var before := NormalizeEntries(raws[..|raws| - 1]).value;
      forall i | 0 <= i < |before|
        ensures before[i].key in KeysOf(before)
      {
        assert before[i] in before;
      }
    }
  }

  // ---- Quoting ----

  function Replace(s: string, c: char, into: string): string {
    if s == [] then [] else (if s[0] == c then into else [s[0]]) + Replace(s[1..], c, into)
  }

  /** The replacements in the order in which the writer applies them. */
  function Escape(s: string): string {
    var backslashes := Replace(s, '\\', "\\\\");
    var quotes := Replace(backslashes, '"', "\\\"");
    var carriageReturns := Replace(quotes, '\r', "\\r");
    var newlines := Replace(carriageReturns, '\n', "\\n");
    var tabs := Replace(newlines, '\t', "\\t");
    Replace(tabs, '$', "$$")
  }

  function Quote(value: string): string {
    "\"" + Escape(value) + "\""
  }

  /** The same escaping in one pass from left to right. */
  function EscapeChar(c: char): string {
    match c
    case '\\' => "\\\\"
    case '"' => "\\\""
    case '\r' => "\\r"
    case '\n' => "\\n"
    case '\t' => "\\t"
    case '$' => "$$"
    case _ => [c]
  }

  function OnePass(s: string): string {
    if s == [] then [] else EscapeChar(s[0]) + OnePass(s[1..])
  }

  lemma {:induction false} ReplaceConcat(s: string, t: string, c: char, into: string)
    ensures Replace(s + t, c, into) == Replace(s, c, into) + Replace(t, c, into)
  {
    if s == [] {
      assert s + t == t;
    } else {
      ReplaceConcat(s[1..], t, c, into);
      assert (s + t)[1..] == s[1..] + t && (s + t)[0] == s[0];
    }
  }

  lemma EscapeConcat(s: string, t: string)
    ensures Escape(s + t) == Escape(s) + Escape(t)
  {
    ReplaceConcat(s, t, '\\', "\\\\");
    var (s1, t1) := (Replace(s, '\\', "\\\\"), Replace(t, '\\', "\\\\"));
    ReplaceConcat(s1, t1, '"', "\\\"");
    var (s2, t2) := (Replace(s1, '"', "\\\""), Replace(t1, '"', "\\\""));
    ReplaceConcat(s2, t2, '\r', "\\r");
    var (s3, t3) := (Replace(s2, '\r', "\\r"), Replace(t2, '\r', "\\r"));
    ReplaceConcat(s3, t3, '\n', "\\n");
    var (s4, t4) := (Replace(s3, '\n', "\\n"), Replace(t3, '\n', "\\n"));
    ReplaceConcat(s4, t4, '\t', "\\t");
    ReplaceConcat(Replace(s4, '\t', "\\t"), Replace(t4, '\t', "\\t"), '$', "$$");
  }

  /** Replacing in a string of at most two characters. */
  lemma ReplaceShort(s: string, c: char, into: string)
    requires |s| <= 2
    ensures |s| == 1 ==> Replace(s, c, into) == (if s[0] == c then into else s)
    ensures |s| == 2 && s[0] != c && s[1] != c ==> Replace(s, c, into) == s
  {
    if |s| == 1 {
      assert Replace(s[1..], c, into) == [];
    } else if |s| == 2 {
      ReplaceShort(s[1..], c, into);
      assert [s[0]] + s[1..] == s;
    }
  }

  lemma EscapeOneChar(c: char)
    ensures Escape([c]) == EscapeChar(c)
  {
    var s1 := Replace([c], '\\', "\\\\");
    ReplaceShort([c], '\\', "\\\\");
    var s2 := Replace(s1, '"', "\\\"");
    ReplaceShort(s1, '"', "\\\"");
    var s3 := Replace(s2, '\r', "\\r");
    ReplaceShort(s2, '\r', "\\r");
    var s4 := Replace(s3, '\n', "\\n");
    ReplaceShort(s3, '\n', "\\n");
    var s5 := Replace(s4, '\t', "\\t");
    ReplaceShort(s4, '\t', "\\t");
    ReplaceShort(s5, '$', "$$");
  }

  /** The chain of six replacements equals one pass: no replacement touches what another one wrote. */
  lemma {:induction false} ChainIsOnePass(s: string)
    ensures Escape(s) == OnePass(s)
  {
    if s != [] {
      assert s == [s[0]] + s[1..];
      EscapeConcat([s[0]], s[1..]);
      EscapeOneChar(s[0]);
      ChainIsOnePass(s[1..]);
    }
  }

  // ---- Rendering ----

  /** The value of an entry and whether it is present. */
  function Resolve(e: Entry, env: Environment): Result<(string, bool), EnvError> {
    if e.Literal? then Success((e.literal, true))
    else if e.source !in env || env[e.source] == "" then
      if e.default.Some? then Success((e.default.value, true))
      else if e.required then Failure(MissingSource)
      else Success(("", false))
    else
      var value :- Bounded(Some(Text(env[e.source])));
      Success((value, true))
  }

  function MetadataOf(e: Entry, present: bool): Metadata {
    Metadata(e.key, e.FromEnv?, e.Literal? || e.required, e.FromEnv? && e.secret, present)
  }

  function Line(key: string, value: string): string {
    key + "=" + Quote(value)
  }

  /** The line of an entry and whether its value is present; quoting checks the value's bounds once more. */
  function RenderEntry(e: Entry, env: Environment): Result<(string, bool), EnvError> {
    var resolved :- Resolve(e, env);
    var value :- Bounded(Some(Text(resolved.0)));
    Success((Line(e.key, value), resolved.1))
  }

  datatype Rendered = Rendered(lines: seq<string>, metadata: seq<Metadata>)

  function RenderEntries(entries: seq<Entry>, env: Environment): Result<Rendered, EnvError> {
    if entries == [] then
      Success(Rendered([], []))
    else
      var before :- RenderEntries(entries[..|entries| - 1], env);
      var e := entries[|entries| - 1];
      var rendered :- RenderEntry(e, env);
      Success(Rendered(before.lines + [rendered.0], before.metadata + [MetadataOf(e, rendered.1)]))
  }

  function Join(lines: seq<string>): string {
    if lines == [] then "" else if |lines| == 1 then lines[0] else lines[0] + "\n" + Join(lines[1..])
  }

  function Render(schema: Schema, env: Environment): Result<(string, seq<Metadata>), EnvError> {
    var entries :- Normalize(schema);
    var rendered :- RenderEntries(entries, env);
    Success((Join(rendered.lines) + "\n", rendered.metadata))
  }

  method RenderEnv(schema: Schema, env: Environment) returns (r: Result<(string, seq<Metadata>), EnvError>)
    ensures r == Render(schema, env)
  {
    hide Line, Resolve, MetadataOf;
    var entries :- NormalizeSchema(schema);
    var lines: seq<string>, metadata: seq<Metadata> := [], [];
    for i := 0 to |entries|
      invariant RenderEntries(entries[..i], env) == Success(Rendered(lines, metadata))
    {
      assert entries[..i + 1][..i] == entries[..i];
      var e := entries[i];
      var resolved := Resolve(e, env);
      if resolved.Failure? {
        RenderFailureStays(entries, env, i + 1);
        return Failure(resolved.error);
      }
      var value := Bounded(Some(Text(resolved.value.0)));
      if value.Failure? {
        RenderFailureStays(entries, env, i + 1);
        return Failure(value.error);
      }
      lines := lines + [Line(e.key, value.value)];
      metadata := metadata + [MetadataOf(e, resolved.value.1)];
    }
    assert entries[..|entries|] == entries;
    return Success((Join(lines) + "\n", metadata));
  }

  lemma {:induction false} RenderFailureStays(entries: seq<Entry>, env: Environment, k: nat)
    requires k <= |entries| && RenderEntries(entries[..k], env).Failure?
    ensures RenderEntries(entries, env) == Failure(RenderEntries(entries[..k], env).error)
    decreases |entries| - k
  {
    if k < |entries| {
      assert entries[..|entries| - 1][..k] == entries[..k];
      RenderFailureStays(entries[..|entries| - 1], env, k);
    } else {
      assert entries[..k] == entries;
    }
  }

  predicate HasValue(e: Entry, env: Environment) {
    e.FromEnv? && e.source in env && env[e.source] != ""
  }

  /** An entry that cannot be resolved: a required value is missing, or the environment's value is not bounded. */
  predicate Unresolvable(e: Entry, env: Environment) {
    e.FromEnv? && if HasValue(e, env) then !IsBounded(env[e.source]) else e.required && e.default.None?
  }

  /** Every value of a good entry was bounded before, so quoting it refuses nothing. */
  lemma QuotingRefusesNothing(e: Entry, env: Environment)
    requires IsGood(e)
    ensures RenderEntry(e, env).Failure? <==> Unresolvable(e, env)
    ensures RenderEntry(e, env).Success? ==>
              Resolve(e, env).Success? && RenderEntry(e, env).value.0 == Line(e.key, Resolve(e, env).value.0)
  {
    assert e.FromEnv? && e.default.None? && !HasValue(e, env) && !e.required ==> IsBounded("");
  }

  lemma {:induction false} EntriesFailIff(entries: seq<Entry>, env: Environment)
    requires forall e | e in entries :: IsGood(e)
    ensures RenderEntries(entries, env).Failure? <==> exists e :: e in entries && Unresolvable(e, env)
  {
    hide RenderEntry, IsGood, Unresolvable;
    if entries != [] {
      var init, last := entries[..|entries| - 1], entries[|entries| - 1];
      assert entries == init + [last] && last in entries;
      EntriesFailIff(init, env);
      QuotingRefusesNothing(last, env);
    }
  }

  /** Rendering fails exactly when the schema is refused or some entry of it cannot be resolved. */
  lemma RenderFailsIff(schema: Schema, env: Environment)
    ensures Render(schema, env).Failure? <==>
            Normalize(schema).Failure? || exists e :: e in Normalize(schema).value && Unresolvable(e, env)
  {
    if Normalize(schema).Success? {
      AcceptedSchemaIsGood(schema.entries.value);
      EntriesFailIff(Normalize(schema).value, env);
    }
  }

  // ---- Reading a file back ----

  /** The position of the first occurrence, or the length when there is none. */
  function Find(s: string, c: char): (k: nat)
    ensures k <= |s| && (k < |s| ==> s[k] == c) && forall i | 0 <= i < k :: s[i] != c
  {
    if s == [] || s[0] == c then 0
    else
      var k := Find(s[1..], c);
      assert forall i | 0 < i < k + 1 :: s[i] == s[1..][i - 1];
      k + 1
  }

  lemma FindAfter(s: string, c: char, t: string)
    requires c !in s
    ensures Find(s + [c] + t, c) == |s|
  {
    var all := s + [c] + t;
    assert all[|s|] == c;
    assert forall i | 0 <= i < |s| :: all[i] == s[i];
  }

  function Lines(text: string): seq<string>
    decreases |text|
  {
    if text == "" then []
    else
      var k := Find(text, '\n');
      if k == |text| then [text] else [text[..k]] + Lines(text[k + 1..])
  }

  function Unescape(s: string): Option<string>
    decreases |s|
  {
    if s == [] then Some([])
    else if s[0] == '\\' || s[0] == '$' then
      if |s| < 2 then None
      else
        var c := Plain(s[0], s[1]);
        var rest := Unescape(s[2..]);
        if c.None? || rest.None? then None else Some([c.value] + rest.value)
    else
      var rest := Unescape(s[1..]);
      if rest.None? then None else Some([s[0]] + rest.value)
  }

  /** The character that a two-character escape stands for. */
  function Plain(mark: char, c: char): Option<char> {
    if mark == '$' then (if c == '$' then Some('$') else None)
    else
      match c
      case '\\' => Some('\\')
      case '"' => Some('"')
      case 'r' => Some('\r')
      case 'n' => Some('\n')
      case 't' => Some('\t')
      case _ => None
  }

  /** A line is a key, the first '=' and a quoted value. */
  function ReadLine(line: string): Option<(string, string)> {
    var k := Find(line, '=');
    if k == |line| then None else
    var quoted := line[k + 1..];
    if |quoted| < 2 || quoted[0] != '"' || quoted[|quoted| - 1] != '"' then None else
    var value := Unescape(quoted[1..|quoted| - 1]);
    if value.None? then None else Some((line[..k], value.value))
  }

  function ReadLines(lines: seq<string>): Option<seq<(string, string)>> {
    if lines == [] then Some([])
    else
      var before, last := ReadLines(lines[..|lines| - 1]), ReadLine(lines[|lines| - 1]);
      if before.None? || last.None? then None else Some(before.value + [last.value])
  }

  /** The key and value of every line of a file. */
  function ReadEnv(text: string): Option<seq<(string, string)>> {
    ReadLines(Lines(text))
  }

  /** How one character may be written: as itself, or as a mark and a code. */
  predicate WrittenAs(c: char, escaped: string) {
    if |escaped| == 2 then
      (escaped[0] == '\\' || escaped[0] == '$') && Plain(escaped[0], escaped[1]) == Some(c)
    else
      escaped == [c] && c != '\\' && c != '$'
  }

  lemma UnescapeWritten(c: char, escaped: string, rest: string)
    requires WrittenAs(c, escaped) && Unescape(rest).Some?
    ensures Unescape(escaped + rest) == Some([c] + Unescape(rest).value)
  {
    assert (escaped + rest)[|escaped|..] == rest;
  }

  lemma EscapeCharWrites(c: char)
    ensures WrittenAs(c, EscapeChar(c))
  {
  }

  lemma {:induction false} UnescapeOnePass(s: string)
    ensures Unescape(OnePass(s)) == Some(s)
  {
    if s != [] {
      UnescapeOnePass(s[1..]);
      EscapeCharWrites(s[0]);
      UnescapeWritten(s[0], EscapeChar(s[0]), OnePass(s[1..]));
      assert s == [s[0]] + s[1..];
    }
  }

  lemma {:induction false} OnePassHasNoNewline(s: string)
    ensures '\n' !in OnePass(s)
  {
    if s != [] {
      OnePassHasNoNewline(s[1..]);
      assert '\n' !in EscapeChar(s[0]);
    }
  }

  lemma LineReadsBack(key: string, value: string)
    requires IsKey(key)
    ensures ReadLine(Line(key, value)) == Some((key, value)) && '\n' !in Line(key, value)
  {
    var line, quoted := Line(key, value), Quote(value);
    FindAfter(key, '=', quoted);
    assert line[|key| + 1..] == quoted && line[..|key|] == key;
    assert quoted[1..|quoted| - 1] == Escape(value);
    ChainIsOnePass(value);
    UnescapeOnePass(value);
    OnePassHasNoNewline(value);
  }

  lemma LinesOfFirst(line: string, rest: string)
    requires '\n' !in line
    ensures Lines(line + ['\n'] + rest) == [line] + Lines(rest)
  {
    var text := line + ['\n'] + rest;
    FindAfter(line, '\n', rest);
    assert text[..|line|] == line && text[|line| + 1..] == rest;
  }

  lemma {:induction false} LinesOfJoin(lines: seq<string>)
    requires lines != [] && forall l | l in lines :: '\n' !in l
    ensures Lines(Join(lines) + "\n") == lines
  {
    assert lines[0] in lines;
    if |lines| == 1 {
      assert Join(lines) + "\n" == lines[0] + ['\n'] + "";
      LinesOfFirst(lines[0], "");
    } else {
      var rest := Join(lines[1..]) + "\n";
      assert Join(lines) + "\n" == lines[0] + ['\n'] + rest;
      LinesOfFirst(lines[0], rest);
      LinesOfJoin(lines[1..]);
    }
  }

  /** The key and value of every entry, as resolved. */
  function Pairs(entries: seq<Entry>, env: Environment): seq<(string, string)>
    requires forall e | e in entries :: Resolve(e, env).Success?
  {
    seq(|entries|, i requires 0 <= i < |entries| => (entries[i].key, Resolve(entries[i], env).value.0))
  }

  /** Lines that read back as these pairs. */
  ghost predicate ReadAs(lines: seq<string>, pairs: seq<(string, string)>) {
    |lines| == |pairs| && (forall l | l in lines :: '\n' !in l) && ReadLines(lines) == Some(pairs)
  }

  lemma ReadsOneMore(lines: seq<string>, pairs: seq<(string, string)>, line: string, key: string, value: string)
    requires ReadAs(lines, pairs) && ReadLine(line) == Some((key, value)) && '\n' !in line
    ensures ReadAs(lines + [line], pairs + [(key, value)])
  {
    assert (lines + [line])[..|lines|] == lines;
  }

  lemma {:induction false} RenderedLinesReadBack(entries: seq<Entry>, env: Environment)
    requires RenderEntries(entries, env).Success? && forall e | e in entries :: IsKey(e.key)
    ensures forall e | e in entries :: Resolve(e, env).Success?
    ensures ReadAs(RenderEntries(entries, env).value.lines, Pairs(entries, env))
  {
    hide Line, ReadAs, Resolve, IsKey;
    if entries == [] {
      NothingReadsBack(env);
    } else {
      var init, last := entries[..|entries| - 1], entries[|entries| - 1];
      assert entries == init + [last] && last in entries;
      RenderedLinesReadBack(init, env);
      var value := Resolve(last, env).value.0;
      LineReadsBack(last.key, value);
      ReadsOneMore(RenderEntries(init, env).value.lines, Pairs(init, env), Line(last.key, value), last.key, value);
      PairsOneMore(init, last, env);
    }
  }

  lemma NothingReadsBack(env: Environment)
    ensures ReadAs([], Pairs([], env))
  {
  }

  lemma PairsOneMore(entries: seq<Entry>, e: Entry, env: Environment)
    requires forall x | x in entries + [e] :: Resolve(x, env).Success?
    ensures Pairs(entries + [e], env) == Pairs(entries, env) + [(e.key, Resolve(e, env).value.0)]
  {
    assert forall x | x in entries :: x in entries + [e];
  }

  /**
   Reading a rendered file back gives exactly the keys and values that were
   rendered, in order and with distinct keys, whatever the values contain.
   */
  lemma RenderedReadsBack(schema: Schema, env: Environment)
    requires Render(schema, env).Success?
    ensures var entries := Normalize(schema).value;
            && (forall e | e in entries :: Resolve(e, env).Success?)
            && ReadEnv(Render(schema, env).value.0) == Some(Pairs(entries, env))
            && (forall i, j | 0 <= i < j < |entries| :: Pairs(entries, env)[i].0 != Pairs(entries, env)[j].0)
  {
    var entries := Normalize(schema).value;
    AcceptedSchemaIsGood(schema.entries.value);
    RenderedLinesReadBack(entries, env);
    LinesOfJoin(RenderEntries(entries, env).value.lines);
  }

  /** The recorded metadata depends on which values are present and never on the values. */
  lemma {:induction false} MetadataHidesValues(entries: seq<Entry>, a: Environment, b: Environment)
    requires RenderEntries(entries, a).Success? && RenderEntries(entries, b).Success?
    requires forall e | e in entries :: HasValue(e, a) <==> HasValue(e, b)
    ensures RenderEntries(entries, a).value.metadata == RenderEntries(entries, b).value.metadata
  {
    if entries != [] {
      assert entries[|entries| - 1] in entries;
      MetadataHidesValues(entries[..|entries| - 1], a, b);
    }
  }
}
