/** Severity levels, their names and their filter priorities. */
module Levels {
  datatype Level = Global | Trace | Debug | Fatal | Error | Warning | Verbose | Info | Unknown

  /** `LevelHelper::convertToString` */
  function ToString(level: Level): string {
    match level
    case Global => "GLOBAL"
    case Debug => "DEBUG"
    case Info => "INFO"
    case Warning => "WARNING"
    case Error => "ERROR"
    case Fatal => "FATAL"
    case Verbose => "VERBOSE"
    case Trace => "TRACE"
    case Unknown => "UNKNOWN"
  }

  function ToLower(level: Level): string
    requires level != Unknown
  {
    match level
    case Global => "global"
    case Debug => "debug"
    case Info => "info"
    case Warning => "warning"
    case Error => "error"
    case Fatal => "fatal"
    case Verbose => "verbose"
    case Trace => "trace"
  }

  predicate StartsWith(s: string, w: string) {
    |w| <= |s| && s[..|w|] == w
  }

  predicate Names(s: string, level: Level)
    requires level != Unknown
  {
    StartsWith(s, ToString(level)) || StartsWith(s, ToLower(level))
  }

  /** The levels in the order in which they are tried. */
  const ORDER := [Global, Debug, Info, Warning, Error, Fatal, Verbose, Trace]

  function FirstNamed(s: string, levels: seq<Level>): Level
    requires Unknown !in levels
  {
    if levels == [] then Unknown
    else if Names(s, levels[0]) then levels[0]
    else FirstNamed(s, levels[1..])
  }

  /** `LevelHelper::convertFromStringPrefix` */
  function FromPrefix(s: string): Level {
    FirstNamed(s, ORDER)
  }

  lemma {:induction false} FirstNamedFinds(s: string, levels: seq<Level>)
    requires Unknown !in levels
    ensures FirstNamed(s, levels) != Unknown ==> Names(s, FirstNamed(s, levels))
    ensures forall l :: l in levels && Names(s, l) ==> FirstNamed(s, levels) != Unknown
  {
    if levels != [] {
      FirstNamedFinds(s, levels[1..]);
    }
  }

  /** A level is found exactly when the string begins with its name, which then lies inside it. */
  lemma FromPrefixExactly(s: string, level: Level)
    requires level != Unknown
    ensures FromPrefix(s) == level <==> Names(s, level)
    ensures FromPrefix(s) == level ==> |ToString(level)| <= |s|
  {
    FirstNamedFinds(s, ORDER);
    assert level in ORDER by {
      assert ORDER[0] == Global && ORDER[1] == Debug && ORDER[2] == Info && ORDER[3] == Warning;
      assert ORDER[4] == Error && ORDER[5] == Fatal && ORDER[6] == Verbose && ORDER[7] == Trace;
    }
    if Names(s, level) {
      NamesDistinct(s, level, FromPrefix(s));
      NameLength(s, level);
    }
  }

  lemma NameLength(s: string, level: Level)
    requires level != Unknown && Names(s, level)
    ensures |ToString(level)| <= |s|
  {
  }

  /** `priority`: the smaller, the more severe. */
  function Priority(level: Level): (p: int)
    ensures 0 <= p <= 7
  {
    match level
    case Fatal => 0
    case Error => 1
    case Warning => 2
    case Info => 3
    case Debug => 4
    case Verbose => 5
    case Trace => 6
    case Global => 7
    case Unknown => 7
  }

  /** No level's name begins another's: the first two characters already tell them apart. */
  lemma NamesDistinct(s: string, a: Level, b: Level)
    requires a != Unknown && b != Unknown && Names(s, a) && Names(s, b)
    ensures a == b
  {
    NameHead(s, a);
    NameHead(s, b);
  }

  /** The first two characters of a level's name, in either case. */
  function Head(level: Level): (string, string) {
    match level
    case Global => ("GL", "gl")
    case Debug => ("DE", "de")
    case Info => ("IN", "in")
    case Warning => ("WA", "wa")
    case Error => ("ER", "er")
    case Fatal => ("FA", "fa")
    case Verbose => ("VE", "ve")
    case Trace => ("TR", "tr")
    case Unknown => ("UN", "un")
  }

  lemma NameHead(s: string, level: Level)
    requires level != Unknown && Names(s, level)
    ensures |s| >= 2 && (s[..2] == Head(level).0 || s[..2] == Head(level).1)
  {
    var w := if StartsWith(s, ToString(level)) then ToString(level) else ToLower(level);
    assert s[..|w|] == w;
    assert s[..2] == w[..2];
  }

  /** Reading the printed name gives the level back, whatever follows it. */
  lemma FromPrefixOfName(level: Level, rest: string)
    requires level != Unknown
    ensures FromPrefix(ToString(level) + rest) == level
  {
    var s := ToString(level) + rest;
    assert s[..|ToString(level)|] == ToString(level);
    FromPrefixExactly(s, level);
  }

  lemma NamesIgnoreComma(a: string, b: string, level: Level)
    requires level != Unknown
    ensures Names(a + "," + b, level) <==> Names(a, level)
  {
    StartsIgnoresComma(a, b, ToString(level));
    StartsIgnoresComma(a, b, ToLower(level));
  }

  lemma StartsIgnoresComma(a: string, b: string, w: string)
    requires ',' !in w
    ensures StartsWith(a + "," + b, w) <==> StartsWith(a, w)
  {
    var s := a + "," + b;
    assert s[|a|] == ',';
    if |w| <= |a| {
      assert s[..|w|] == a[..|w|];
    } else {
      assert w[|a|] != ',';
    }
  }

  /** A level is never read across a comma. */
  lemma FromPrefixIgnoresComma(a: string, b: string)
    ensures FromPrefix(a + "," + b) == FromPrefix(a)
  {
    var l, l' := FromPrefix(a), FromPrefix(a + "," + b);
    if l != Unknown {
      NamesIgnoreComma(a, b, l);
      FromPrefixExactly(a, l);
      FromPrefixExactly(a + "," + b, l);
    } else if l' != Unknown {
      NamesIgnoreComma(a, b, l');
      FromPrefixExactly(a, l');
      FromPrefixExactly(a + "," + b, l');
    }
  }
}
