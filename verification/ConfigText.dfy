/** The text form of a configuration: lines, comments, level headers and quoted values. */
module ConfigText {
  import opened Levels
  import opened Glob
  import opened Escape
  import opened ConfigRegistry

  // ---------------------------------------------------------------- characters and words

  predicate IsSpace(c: char) {
    c == ' ' || '\t' <= c <= '\r'
  }

  function LTrim(s: string): string {
    if s != "" && IsSpace(s[0]) then LTrim(s[1..]) else s
  }

  function RTrim(s: string): string {
    if s != "" && IsSpace(s[|s| - 1]) then RTrim(s[..|s| - 1]) else s
  }

  function Trim(s: string): string {
    LTrim(RTrim(s))
  }

  function UpperChar(c: char): char {
    if 'a' <= c <= 'z' then c - 'a' + 'A' else c
  }

  function Upper(s: string): (r: string)
    ensures |r| == |s| && forall i :: 0 <= i < |s| ==> r[i] == UpperChar(s[i])
  {
    if s == "" then "" else [UpperChar(s[0])] + Upper(s[1..])
  }

  predicate IsLetter(c: char) {
    'A' <= c <= 'Z' || 'a' <= c <= 'z'
  }

  /** The levels' names, compared without regard to case. */
  function LevelNamed(s: string, levels: seq<Level>): Level {
    if levels == [] then Unknown
    else if Upper(CStr(s)) == ToString(levels[0]) then levels[0]
    else LevelNamed(s, levels[1..])
  }

  /** `LevelHelper::convertFromString` */
  function LevelFromString(s: string): Level {
    LevelNamed(s, ORDER)
  }

  function TypeName(t: ConfigType): string {
    match t
    case Enabled => "ENABLED"
    case ToFile => "TO_FILE"
    case ToStandardOutput => "TO_STANDARD_OUTPUT"
    case Format => "FORMAT"
    case Filename => "FILENAME"
    case SubsecondPrecision => "SUBSECOND_PRECISION"
    case PerformanceTracking => "PERFORMANCE_TRACKING"
    case MaxLogFileSize => "MAX_LOG_FILE_SIZE"
    case LogFlushThreshold => "LOG_FLUSH_THRESHOLD"
    case UnknownType => "UNKNOWN"
  }

  /** A row of the table of type names; the precision has a row with an older name too. */
  datatype TypeKey = Own(ctype: ConfigType) | OlderPrecision

  function KeyName(k: TypeKey): string {
    match k
    case Own(t) => TypeName(t)
    case OlderPrecision => "MILLISECONDS_WIDTH"
  }

  function KeyType(k: TypeKey): ConfigType {
    match k
    case Own(t) => t
    case OlderPrecision => SubsecondPrecision
  }

  const TYPE_KEYS := [Own(Enabled), Own(ToFile), Own(ToStandardOutput), Own(Format), Own(Filename),
                      Own(SubsecondPrecision), OlderPrecision, Own(PerformanceTracking), Own(MaxLogFileSize),
                      Own(LogFlushThreshold)]

  function TypeNamed(s: string, keys: seq<TypeKey>): ConfigType {
    if keys == [] then UnknownType
    else if Upper(CStr(s)) == KeyName(keys[0]) then KeyType(keys[0])
    else TypeNamed(s, keys[1..])
  }

  /** `ConfigurationTypeHelper::convertFromString` */
  function TypeFromString(s: string): ConfigType {
    TypeNamed(s, TYPE_KEYS)
  }

  // ---------------------------------------------------------------- quotes and comments

  const QUOTE := "\""
  const COMMENT := "##"

  /** The first closing quote that is not escaped; the search skips two places past an escaped one. */
  function ClosingQuote(s: string, q: int): (e: int)
    requires q == -1 || 1 <= q < |s|
    ensures e == -1 || q <= e < |s|
    decreases if q == -1 then 0 else |s| - q
  {
    if q == -1 || s[q - 1] != '\\' then q
    else ClosingQuote(s, Find(s, QUOTE, q + 2))
  }

  function QuoteEnd(s: string): int {
    var start := Find(s, QUOTE, 0);
    if start == -1 then -1 else ClosingQuote(s, Find(s, QUOTE, start + 1))
  }

  /** `ignoreComments`: a comment sign inside the quotes does not count. */
  function WithoutComment(s: string): string {
    var found := Find(s, COMMENT, 0);
    if found == -1 then s
    else
      var end := QuoteEnd(s);
      var cut := if end == -1 || found < end then Find(s, COMMENT, end + 1) else found;
      if cut == -1 then s else s[..cut]
  }

  /** The loop that drops the backslash in front of each escaped quote. */
  function DropEscapes(v: string, q: int): (r: (string, int))
    requires q == -1 || 1 <= q < |v|
    ensures r.1 == -1 || 1 <= r.1 < |r.0|
    decreases if q == -1 then 0 else |v| - q
  {
    if q == -1 || v[q - 1] != '\\' then (v, q)
    else
      var v' := v[..q - 1] + v[q..];
      DropEscapes(v', Find(v', QUOTE, q + 2))
  }

  /** What stands between the quotes, when there is something. */
  function Stripped(w: string, start: nat, end: int): string
    requires end == -1 || 1 <= end
  {
    if end == -1 || start == end || start + 1 == end then w else Substr(w, start + 1, end - 1)
  }

  /** The value behind the equals sign. */
  function ValueOf(raw: string): string {
    Unquoted(Trim(raw))
  }

  function Unquoted(v: string): string {
    var start := Find(v, QUOTE, 0);
    if start == -1 then v
    else
      var d := DropEscapes(v, Find(v, QUOTE, start + 1));
      Stripped(d.0, start, d.1)
  }

  /** `substr` with a count that may reach past the end. */
  function Substr(s: string, from: nat, count: nat): string {
    if from > |s| then "" else if from + count > |s| then s[from..] else s[from..from + count]
  }

  // ---------------------------------------------------------------- lines

  /** The registry, the level of the last header, and whether the last line was understood. */
  datatype State = State(registry: Registry, level: Level, ok: bool)

  function ParseLine(st: State, given: string): State {
    var line := Trim(given);
    if StartsWith(line, COMMENT) then st.(ok := true)
    else ParseContent(st, Trim(WithoutComment(line)))
  }

  function ParseContent(st: State, line: string): State {
    if line == "" then st.(ok := true)
    else if line[0] == '*' then
      if |line| <= 2 then st.(ok := true)
      else st.(level := LevelFromString(Trim(Upper(line[1..|line| - 1]))), ok := true)
    else ParseSetting(st, line)
  }

  function ParseSetting(st: State, line: string): State {
    var assignment := Find(line, "=", 0);
    if line == "" || !IsLetter(line[0]) || assignment == -1 then st.(ok := false)
    else
      var ctype := TypeFromString(Trim(Upper(line[..assignment])));
      if st.level == Unknown || ctype == UnknownType then st.(ok := false)
      else State(Set(st.registry, st.level, ctype, ValueOf(line[assignment + 1..])), st.level, true)
  }

  /** The lines that `getline` delivers: a final empty one is not among them. */
  function Lines(text: string): seq<string>
    decreases |text|
  {
    if text == "" then []
    else
      var n := Find(text, "\n", 0);
      if n == -1 then [text] else [text[..n]] + Lines(text[n + 1..])
  }

  function ParseLines(st: State, lines: seq<string>): State
    decreases |lines|
  {
    if lines == [] then st else ParseLines(ParseLine(st, lines[0]), lines[1..])
  }

  /** `parseFromText`, on a registry that has taken over its base already. */
  function ParseText(r: Registry, text: string): State {
    ParseLines(State(r, Unknown, false), Lines(text))
  }

  // ---------------------------------------------------------------- rendering

  datatype Setting = Setting(level: Level, ctype: ConfigType, value: string)

  /** A value that plain quotes can carry. */
  ghost predicate Plain(v: string) {
    v != "" && '"' !in v && v[|v| - 1] != '\\'
  }

  /** A value that plain quotes can carry on one line. */
  ghost predicate Quotable(v: string) {
    Plain(v) && '\n' !in v
  }

  ghost predicate Renderable(s: Setting) {
    s.level != Unknown && s.ctype != UnknownType && Quotable(s.value)
  }

  function HeaderLine(name: string): string {
    "* " + name + ":"
  }

  function SettingLine(name: string, v: string): string {
    name + " = \"" + v + "\""
  }

  function Render(settings: seq<Setting>): string {
    if settings == [] then ""
    else HeaderLine(ToString(settings[0].level)) + "\n"
         + (SettingLine(TypeName(settings[0].ctype), settings[0].value) + "\n" + Render(settings[1..]))
  }

  function Apply(r: Registry, settings: seq<Setting>): Registry
    decreases |settings|
  {
    if settings == [] then r
    else Apply(Set(r, settings[0].level, settings[0].ctype, settings[0].value), settings[1..])
  }
}

/** Rendering settings and parsing the text applies the settings. */
module ConfigRoundTrip {
  import opened Levels
  import opened Glob
  import opened Escape
  import opened ConfigRegistry
  import opened ConfigText

  // ---------------------------------------------------------------- searching and trimming

  /** What determines the result of a search. */
  lemma {:induction false} FindIs(s: string, w: string, from: nat, p: int)
    requires w != ""
    requires p == -1 || (from <= p && OccursAt(s, w, p))
    requires forall q :: from <= q < |s| && (p == -1 || q < p) ==> !OccursAt(s, w, q)
    ensures Find(s, w, from) == p
  {
    var f := Find(s, w, from);
    assert f != -1 ==> OccursAt(s, w, f);
  }

  /** A search for one character. */
  lemma {:induction false} FindChar(s: string, c: char, from: nat, p: int)
    requires p == -1 || (from <= p < |s| && s[p] == c)
    requires forall q :: from <= q < |s| && (p == -1 || q < p) ==> s[q] != c
    ensures Find(s, [c], from) == p
  {
    forall q | from <= q < |s| && (p == -1 || q < p)
      ensures !OccursAt(s, [c], q)
    {
      assert s[q + 0] != [c][0];
    }
    FindIs(s, [c], from, p);
  }

  /** A string that begins and ends with visible characters is not trimmed. */
  lemma TrimVisible(s: string)
    requires s != "" && !IsSpace(s[0]) && !IsSpace(s[|s| - 1])
    ensures Trim(s) == s
  {
  }

  lemma TrimFront(s: string)
    requires s != "" && !IsSpace(s[0]) && !IsSpace(s[|s| - 1])
    ensures Trim(" " + s) == s
  {
    var t := " " + s;
    assert t[|t| - 1] == s[|s| - 1];
    assert RTrim(t) == t;
    assert t[1..] == s;
    assert LTrim(t) == LTrim(s) == s;
  }

  lemma TrimBack(s: string)
    requires s != "" && !IsSpace(s[0]) && !IsSpace(s[|s| - 1])
    ensures Trim(s + " ") == s
  {
    var t := s + " ";
    assert t[..|t| - 1] == s;
    assert RTrim(t) == RTrim(s) == s;
  }

  // ---------------------------------------------------------------- words

  /** A word of capital letters and underscores. */
  ghost predicate Word(s: string) {
    s != "" && IsLetter(s[0]) && forall i :: 0 <= i < |s| ==> 'A' <= s[i] <= 'Z' || s[i] == '_'
  }

  lemma LevelIsWord(level: Level)
    ensures Word(ToString(level))
  {
  }

  lemma TypeIsWord(t: ConfigType)
    ensures Word(TypeName(t))
  {
    if |TypeName(t)| >= 15 {
      LongTypeIsWord(t);
    }
  }

  lemma LongTypeIsWord(t: ConfigType)
    requires |TypeName(t)| >= 15
    ensures Word(TypeName(t))
  {
  }

  lemma {:induction false} WordIsCString(s: string)
    requires forall i :: 0 <= i < |s| ==> 'A' <= s[i] <= 'Z' || s[i] == '_'
    ensures CStr(s) == s && Upper(s) == s
  {
    if s != "" {
      WordIsCString(s[1..]);
    }
  }

  lemma {:induction false} UpperConcat(a: string, b: string)
    ensures Upper(a + b) == Upper(a) + Upper(b)
  {
  }

  lemma {:induction false} LevelNamedFinds(level: Level, levels: seq<Level>)
    requires level in levels && Unknown !in levels
    ensures LevelNamed(ToString(level), levels) == level
  {
    LevelIsWord(level);
    WordIsCString(ToString(level));
    if levels[0] != level {
      LevelNamesDiffer(level, levels[0]);
      LevelNamedFinds(level, levels[1..]);
    }
  }

  lemma LevelNamesDiffer(a: Level, b: Level)
    requires a != b && a != Unknown && b != Unknown
    ensures ToString(a) != ToString(b)
  {
  }

  lemma LevelReadsBack(level: Level)
    requires level != Unknown
    ensures LevelFromString(ToString(level)) == level
  {
    assert level in ORDER by {
      assert ORDER[0] == Global && ORDER[1] == Debug && ORDER[2] == Info && ORDER[3] == Warning;
      assert ORDER[4] == Error && ORDER[5] == Fatal && ORDER[6] == Verbose && ORDER[7] == Trace;
    }
    LevelNamedFinds(level, ORDER);
  }

  lemma KeyNamesDiffer(t: ConfigType, k: TypeKey)
    requires t != UnknownType && k != Own(t)
    ensures KeyName(k) != TypeName(t)
  {
  }

  lemma {:induction false} TypeNamedFinds(t: ConfigType, keys: seq<TypeKey>)
    requires t != UnknownType && Own(t) in keys
    ensures TypeNamed(TypeName(t), keys) == t
  {
    TypeIsWord(t);
    WordIsCString(TypeName(t));
    if keys[0] != Own(t) {
      KeyNamesDiffer(t, keys[0]);
      TypeNamedFinds(t, keys[1..]);
    }
  }

  lemma TypeIsListed(t: ConfigType)
    requires t != UnknownType
    ensures Own(t) in TYPE_KEYS
  {
    assert TYPE_KEYS[0] == Own(Enabled) && TYPE_KEYS[1] == Own(ToFile) && TYPE_KEYS[2] == Own(ToStandardOutput);
    assert TYPE_KEYS[3] == Own(Format) && TYPE_KEYS[4] == Own(Filename) && TYPE_KEYS[5] == Own(SubsecondPrecision);
    assert TYPE_KEYS[7] == Own(PerformanceTracking) && TYPE_KEYS[8] == Own(MaxLogFileSize);
    assert TYPE_KEYS[9] == Own(LogFlushThreshold);
  }

  lemma TypeReadsBack(t: ConfigType)
    requires t != UnknownType
    ensures TypeFromString(TypeName(t)) == t
  {
    TypeIsListed(t);
    TypeNamedFinds(t, TYPE_KEYS);
  }

  // ---------------------------------------------------------------- one header

  lemma NoHashNoComment(s: string)
    requires '#' !in s
    ensures WithoutComment(s) == s && !StartsWith(s, COMMENT)
  {
    forall q | 0 <= q < |s|
      ensures !OccursAt(s, COMMENT, q)
    {
      assert s[q + 0] != COMMENT[0];
    }
    FindIs(s, COMMENT, 0, -1);
    assert |s| >= 2 ==> s[..2][0] != COMMENT[0];
  }

  /** What is left of a header when its decoration is gone. */
  lemma HeaderWord(w: string)
    requires Word(w)
    ensures var line := HeaderLine(w);
            && Trim(line) == line && WithoutComment(line) == line && !StartsWith(line, COMMENT)
            && |line| > 2 && line[0] == '*' && Trim(Upper(line[1..|line| - 1])) == w
  {
    var line := HeaderLine(w);
    WordIsCString(w);
    assert line[0] == '*' && line[|line| - 1] == ':';
    TrimVisible(line);
    NoHashNoComment(line);
    assert line[1..|line| - 1] == " " + w;
    UpperConcat(" ", w);
    assert Upper(" " + w) == " " + w;
    TrimFront(w);
  }

  /** A header sets the current level. */
  lemma HeaderParses(st: State, level: Level)
    requires level != Unknown
    ensures ParseLine(st, HeaderLine(ToString(level))) == st.(level := level, ok := true)
  {
    LevelIsWord(level);
    HeaderWord(ToString(level));
    LevelReadsBack(level);
  }

  // ---------------------------------------------------------------- one setting

  /** The characters of a setting's line around its value. */
  lemma LineCharacters(w: string, v: string)
    requires Word(w)
    ensures var s := SettingLine(w, v);
            var n := |w|;
            && |s| == n + 5 + |v| && n > 0 && IsLetter(s[0])
            && (forall i :: 0 <= i < n ==> s[i] == w[i] && s[i] != '"' && s[i] != '=' && s[i] != '#')
            && s[n] == ' ' && s[n + 1] == '=' && s[n + 2] == ' ' && s[n + 3] == '"'
            && (forall i :: n + 4 <= i < |s| - 1 ==> s[i] == v[i - n - 4])
            && s[|s| - 1] == '"'
  {
  }

  lemma LineQuotes(w: string, v: string)
    requires Word(w) && Plain(v)
    ensures QuoteEnd(SettingLine(w, v)) == |SettingLine(w, v)| - 1
  {
    var s := SettingLine(w, v);
    LineCharacters(w, v);
    FindChar(s, '"', 0, |w| + 3);
    FindChar(s, '"', |w| + 4, |s| - 1);
    assert s[|s| - 2] == v[|v| - 1];
  }

  /** The value may hold comment signs: they stand inside the quotes. */
  lemma LineHasNoComment(w: string, v: string)
    requires Word(w) && Plain(v)
    ensures WithoutComment(SettingLine(w, v)) == SettingLine(w, v)
    ensures !StartsWith(SettingLine(w, v), COMMENT)
  {
    var s := SettingLine(w, v);
    LineCharacters(w, v);
    LineQuotes(w, v);
    FindIs(s, COMMENT, |s|, -1);
    assert s[..2][0] == s[0] != COMMENT[0];
  }

  /** The quotes of a value in quotes. */
  lemma {:induction false} QuotesFound(q: string, v: string)
    requires Quotable(v) && q == "\"" + v + "\""
    ensures |q| == |v| + 2 && q[0] == '"' && q[|q| - 1] == '"' && q[|q| - 2] != '\\'
    ensures Find(q, QUOTE, 0) == 0 && Find(q, QUOTE, 1) == |q| - 1
    ensures Substr(q, 1, |v|) == v
  {
    assert forall i :: 0 <= i < |v| ==> q[i + 1] == v[i];
    FindChar(q, '"', 0, 0);
    forall i | 1 <= i < |q| - 1
      ensures q[i] != '"'
    {
      assert q[i] == v[i - 1];
    }
    FindChar(q, '"', 1, |q| - 1);
    assert q[1..1 + |v|] == v;
  }

  lemma QuotedValue(raw: string, q: string, v: string)
    requires Quotable(v) && q == "\"" + v + "\"" && raw == " " + q
    ensures ValueOf(raw) == v
  {
    QuotesFound(q, v);
    TrimFront(q);
    assert DropEscapes(q, |q| - 1) == (q, |q| - 1);
    assert Unquoted(q) == Stripped(q, 0, |q| - 1);
  }

  /** The two sides of a setting's equals sign. */
  lemma LineSides(w: string, v: string)
    requires Word(w) && Quotable(v)
    ensures var s := SettingLine(w, v);
            && Find(s, "=", 0) == |w| + 1
            && Trim(Upper(s[..|w| + 1])) == w
            && ValueOf(s[|w| + 2..]) == v
  {
    var s := SettingLine(w, v);
    LineCharacters(w, v);
    FindChar(s, '=', 0, |w| + 1);
    WordIsCString(w);
    assert s[..|w| + 1] == w + " ";
    UpperConcat(w, " ");
    assert Upper(w + " ") == w + " ";
    TrimBack(w);
    var q := "\"" + v + "\"";
    assert s[|w| + 2..] == " " + q;
    QuotedValue(s[|w| + 2..], q, v);
  }

  /** A setting's line sets its value at the current level. */
  lemma SettingParses(st: State, t: ConfigType, v: string)
    requires Quotable(v) && t != UnknownType && st.level != Unknown
    ensures ParseLine(st, SettingLine(TypeName(t), v)) == State(Set(st.registry, st.level, t, v), st.level, true)
  {
    var w := TypeName(t);
    TypeIsWord(t);
    TypeReadsBack(t);
    SettingParsesAs(st, w, t, v);
  }

  lemma SettingParsesAs(st: State, w: string, t: ConfigType, v: string)
    requires Word(w) && TypeFromString(w) == t && Quotable(v) && t != UnknownType && st.level != Unknown
    ensures ParseLine(st, SettingLine(w, v)) == State(Set(st.registry, st.level, t, v), st.level, true)
  {
    var s := SettingLine(w, v);
    LineCharacters(w, v);
    TrimVisible(s);
    LineHasNoComment(w, v);
    LineSides(w, v);
    assert ParseSetting(st, s) == State(Set(st.registry, st.level, t, v), st.level, true);
  }

  // ---------------------------------------------------------------- whole texts

  lemma {:induction false} LinesOf(line: string, rest: string)
    requires '\n' !in line
    ensures Lines(line + "\n" + rest) == [line] + Lines(rest)
  {
    var s := line + "\n" + rest;
    FindChar(s, '\n', 0, |line|);
    assert s[..|line|] == line && s[|line| + 1..] == rest;
  }

  lemma {:induction false} OneSettingParses(st: State, s: Setting, rest: string)
    requires Renderable(s)
    ensures var h, l := HeaderLine(ToString(s.level)), SettingLine(TypeName(s.ctype), s.value);
            ParseLines(st, Lines(h + "\n" + (l + "\n" + rest))) ==
            ParseLines(State(Set(st.registry, s.level, s.ctype, s.value), s.level, true), Lines(rest))
  {
    LevelIsWord(s.level);
    TypeIsWord(s.ctype);
    HeaderParses(st, s.level);
    SettingParses(st.(level := s.level, ok := true), s.ctype, s.value);
    TwoLines(st, ToString(s.level), TypeName(s.ctype), s.value, rest);
  }

  lemma {:induction false} TwoLines(st: State, a: string, b: string, v: string, rest: string)
    requires Word(a) && Word(b) && Quotable(v)
    ensures ParseLines(st, Lines(HeaderLine(a) + "\n" + (SettingLine(b, v) + "\n" + rest))) ==
            ParseLines(ParseLine(ParseLine(st, HeaderLine(a)), SettingLine(b, v)), Lines(rest))
  {
    var h, l := HeaderLine(a), SettingLine(b, v);
    LinesOf(h, l + "\n" + rest);
    LinesOf(l, rest);
    var lines := [h] + ([l] + Lines(rest));
    assert lines[1..] == [l] + Lines(rest) && lines[1..][1..] == Lines(rest);
  }

  lemma {:induction false} SettingsParse(st: State, settings: seq<Setting>)
    requires forall i :: 0 <= i < |settings| ==> Renderable(settings[i])
    ensures var st' := ParseLines(st, Lines(Render(settings)));
            && st'.registry == Apply(st.registry, settings)
            && st'.ok == (st.ok || settings != [])
    decreases |settings|
  {
    if settings != [] {
      var s := settings[0];
      OneSettingParses(st, s, Render(settings[1..]));
      SettingsParse(State(Set(st.registry, s.level, s.ctype, s.value), s.level, true), settings[1..]);
    }
  }

  /** Parsing a rendered text gives the registry that applying the settings in order gives. */
  lemma {:induction false} RenderRoundTrip(r: Registry, settings: seq<Setting>)
    requires forall i :: 0 <= i < |settings| ==> Renderable(settings[i])
    ensures ParseText(r, Render(settings)).registry == Apply(r, settings)
    ensures ParseText(r, Render(settings)).ok <==> settings != []
  {
    SettingsParse(State(r, Unknown, false), settings);
  }
}

/** The parser's routines, which edit the line at hand and the registry object step by step. */
module ConfigParser {
  import opened Levels
  import opened Escape
  import opened ConfigRegistry
  import opened ConfigText
  import opened ConfigObject

  method IgnoreComments(given: string) returns (line: string)
    ensures line == WithoutComment(given)
  {
    line := given;
    var quotesStart := Find(line, QUOTE, 0);
    var quotesEnd := -1;
    if quotesStart != -1 {
      quotesEnd := Find(line, QUOTE, quotesStart + 1);
      ghost var first := quotesEnd;
      while quotesEnd != -1 && line[quotesEnd - 1] == '\\'
        invariant quotesEnd == -1 || 1 <= quotesEnd < |line|
        invariant ClosingQuote(line, quotesEnd) == ClosingQuote(line, first)
        decreases if quotesEnd == -1 then 0 else |line| - quotesEnd
      {
        quotesEnd := Find(line, QUOTE, quotesEnd + 2);
      }
    }
    assert quotesEnd == QuoteEnd(line);
    var foundAt := Find(line, COMMENT, 0);
    if foundAt != -1 {
      if quotesEnd == -1 || foundAt < quotesEnd {
        foundAt := Find(line, COMMENT, quotesEnd + 1);
      }
      if foundAt != -1 {
        line := line[..foundAt];
      }
    }
  }

  /** Erases the backslash in front of each escaped quote, up to a quote that closes. */
  method EraseEscapes(given: string, q: int) returns (value: string, quotesEnd: int)
    requires q == -1 || 1 <= q < |given|
    ensures (value, quotesEnd) == DropEscapes(given, q)
  {
    value, quotesEnd := given, q;
    while quotesEnd != -1 && value[quotesEnd - 1] == '\\'
      invariant quotesEnd == -1 || 1 <= quotesEnd < |value|
      invariant DropEscapes(value, quotesEnd) == DropEscapes(given, q)
      decreases if quotesEnd == -1 then 0 else |value| - quotesEnd
    {
      value := value[..quotesEnd - 1] + value[quotesEnd..];
      quotesEnd := Find(value, QUOTE, quotesEnd + 2);
    }
  }

  /** The value, with its quotes stripped. */
  method ReadValue(raw: string) returns (value: string)
    ensures value == ValueOf(raw)
  {
    value := Trim(raw);
    value := Unquote(value);
  }

  method Unquote(given: string) returns (value: string)
    ensures value == Unquoted(given)
  {
    value := given;
    var quotesStart := Find(value, QUOTE, 0);
    if quotesStart == -1 {
      return;
    }
    var quotesEnd;
    value, quotesEnd := EraseEscapes(value, Find(value, QUOTE, quotesStart + 1));
    value := Stripped(value, quotesStart, quotesEnd);
  }

  /** One line: the registry and the current level change as the line says. */
  method ReadLine(given: string, level: Level, conf: Configurations) returns (level': Level, ok: bool)
    modifies conf
    ensures State(conf.list, level', ok) == ParseLine(State(old(conf.list), level, false), given)
  {
    level' := level;
    var line := Trim(given);
    if StartsWith(line, COMMENT) {
      return level, true;
    }
    line := IgnoreComments(line);
    line := Trim(line);
    if line == "" {
      return level, true;
    }
    if line[0] == '*' {
      if |line| <= 2 {
        return level, true;
      }
      level' := LevelFromString(Trim(Upper(line[1..|line| - 1])));
      return level', true;
    }
    ok := ReadSetting(line, level, conf);
  }

  /** The type and the value that a line assigns, with no type when it is not an assignment. */
  method ReadAssignment(line: string) returns (ctype: ConfigType, value: string)
    requires line != ""
    ensures var assignment := Find(line, "=", 0);
            if !IsLetter(line[0]) || assignment == -1 then ctype == UnknownType
            else ctype == TypeFromString(Trim(Upper(line[..assignment]))) && value == ValueOf(line[assignment + 1..])
  {
    ctype, value := UnknownType, "";
    var assignment := Find(line, "=", 0);
    if IsLetter(line[0]) && assignment != -1 {
      ctype := TypeFromString(Trim(Upper(line[..assignment])));
      value := ReadValue(line[assignment + 1..]);
    }
  }

  method ReadSetting(line: string, level: Level, conf: Configurations) returns (ok: bool)
    requires line != ""
    modifies conf
    ensures State(conf.list, level, ok) == ParseSetting(State(old(conf.list), level, false), line)
  {
    var ctype, value := ReadAssignment(line);
    if level == Unknown || ctype == UnknownType {
      return false;
    }
    conf.Set(level, ctype, value);
    return true;
  }

  lemma OkDoesNotMatter(st: State, line: string, ok: bool)
    ensures ParseLine(st.(ok := ok), line) == ParseLine(st, line)
  {
  }

  /** `parseFromText`: the base is taken over first, then the lines in turn; the last one decides. */
  method ParseFromText(text: string, conf: Configurations, base: Configurations?) returns (ok: bool)
    modifies conf
    ensures var r := if base == null || base == conf then old(conf.list)
                     else ConfigRegistry.SetFromBase(old(conf.list), old(base.list));
            conf.list == ParseText(r, text).registry && ok == ParseText(r, text).ok
  {
    conf.SetFromBase(base);
    ghost var whole := ParseText(conf.list, text);
    ok := false;
    var level := Unknown;
    var rest := text;
    while rest != ""
      invariant ParseLines(State(conf.list, level, ok), Lines(rest)) == whole
      decreases |rest|
    {
      var n := Find(rest, "\n", 0);
      var line := if n == -1 then rest else rest[..n];
      var tail := if n == -1 then "" else rest[n + 1..];
      assert Lines(rest) == [line] + Lines(tail);
      assert ([line] + Lines(tail))[1..] == Lines(tail);
      OkDoesNotMatter(State(conf.list, level, false), line, ok);
      level, ok := ReadLine(line, level, conf);
      rest := tail;
    }
  }
}
