/** The text form of the category list: its parser, its printer, and how texts append. */
module CategoryText {
  import opened Levels

  datatype Category = Category(name: string, level: Level)

  /** The parser's variables; `isLevel` is `!isCat` throughout. */
  datatype Scan = Scan(isCat: bool, name: string, level: Level, list: seq<Category>)

  const START := Scan(true, "", Unknown, [])

  /** What a comma and the end of the text do with the field read so far. */
  function Flush(st: Scan): Scan {
    if st.name != "" && st.level != Unknown
    then st.(name := "", level := Unknown, list := st.list + [Category(st.name, st.level)])
    else st
  }

  /** One round of the loop of `setCategories`: what it does with the text at hand, ... */
  function Advance(s: string, st: Scan): Scan
    requires s != ""
  {
    if s[0] == ':' then st.(isCat := false)
    else if s[0] == ',' then Flush(st.(isCat := true))
    else if st.isCat then st.(name := st.name + [s[0]])
    else st.(level := FromPrefix(s))
  }

  /** ... and how far it moves: over a level's whole name, otherwise over one character. */
  function Width(s: string, st: Scan): (n: nat)
    requires s != ""
    ensures 1 <= n <= |s|
  {
    if s[0] == ':' || s[0] == ',' || st.isCat || FromPrefix(s) == Unknown then 1
    else
      FromPrefixExactly(s, FromPrefix(s));
      |ToString(FromPrefix(s))|
  }

  /** The loop over the rest of the text. */
  function ParseScan(s: string, st: Scan): Scan
    decreases |s|
  {
    if s == "" then st else ParseScan(s[Width(s, st)..], Advance(s, st))
  }

  function Parse(s: string): seq<Category> {
    Flush(ParseScan(s, START)).list
  }

  // ---------------------------------------------------------------- how much is parsed

  function Commas(s: string): nat {
    if s == "" then 0 else Commas(s[..|s| - 1]) + if s[|s| - 1] == ',' then 1 else 0
  }

  lemma {:induction false} CommasConcat(a: string, b: string)
    ensures Commas(a + b) == Commas(a) + Commas(b)
  {
    if b == "" {
      assert a + b == a;
    } else {
      CommasConcat(a, b[..|b| - 1]);
      assert (a + b)[..|a + b| - 1] == a + b[..|b| - 1];
    }
  }

  lemma RoundLength(s: string, st: Scan)
    requires s != ""
    ensures |st.list| <= |Advance(s, st).list| <= |st.list| + Commas(s[..Width(s, st)])
  {
    if s[0] == ',' {
      assert s[..1][..0] == "";
      assert Commas(s[..1]) == 1;
    }
  }

  lemma {:induction false} ScanLength(s: string, st: Scan)
    ensures |st.list| <= |ParseScan(s, st).list| <= |st.list| + Commas(s)
    decreases |s|
  {
    if s != "" {
      var n := Width(s, st);
      ScanLength(s[n..], Advance(s, st));
      RoundLength(s, st);
      CommasConcat(s[..n], s[n..]);
      assert s == s[..n] + s[n..];
    }
  }

  /** A text never gives more categories than the fields that are reserved for it. */
  lemma {:induction false} ParseLength(s: string)
    ensures |Parse(s)| <= Commas(s) + 1
  {
    ScanLength(s, START);
  }

  // ---------------------------------------------------------------- appending texts

  /** What was listed before does not influence what is read next. */
  lemma {:induction false} ScanPrefix(s: string, st: Scan, before: seq<Category>)
    ensures ParseScan(s, st.(list := before + st.list)) ==
            ParseScan(s, st).(list := before + ParseScan(s, st).list)
    decreases |s|
  {
    if s != "" {
      var next := Advance(s, st);
      assert Advance(s, st.(list := before + st.list)) == next.(list := before + next.list);
      ScanPrefix(s[Width(s, st)..], next, before);
    }
  }

  /** The loop never looks across a comma. */
  lemma RoundIgnoresComma(a: string, b: string, st: Scan)
    requires a != ""
    ensures Advance(a + "," + b, st) == Advance(a, st)
    ensures Width(a + "," + b, st) == Width(a, st)
  {
    FromPrefixIgnoresComma(a, b);
  }

  /** The parser passes a comma in the middle as if the text in front of it stood alone. */
  lemma {:induction false} ScanConcat(a: string, b: string, st: Scan)
    ensures ParseScan(a + "," + b, st) == ParseScan(b, Flush(ParseScan(a, st).(isCat := true)))
    decreases |a|
  {
    var s := a + "," + b;
    if a == "" {
      assert s[1..] == b;
      assert ParseScan(s, st) == ParseScan(s[1..], Flush(st.(isCat := true)));
    } else {
      RoundIgnoresComma(a, b, st);
      var n := Width(a, st);
      assert s[n..] == a[n..] + "," + b;
      ScanConcat(a[n..], b, Advance(a, st));
    }
  }

  /** The text ends with a complete field or with nothing pending. */
  predicate Clean(s: string) {
    var st := ParseScan(s, START);
    st.name == "" <==> st.level == Unknown
  }

  lemma CleanAppends(a: string, b: string)
    requires Clean(a)
    ensures Parse(a + "," + b) == Parse(a) + Parse(b)
    ensures Clean(a + "," + b) <==> Clean(b)
  {
    ScanConcat(a, b, START);
    var st := Flush(ParseScan(a, START).(isCat := true));
    assert st == START.(list := Parse(a) + START.list);
    ScanPrefix(b, START, Parse(a));
  }

  /** Witnesses that a text with something pending does not append. */
  lemma UncleanDoesNotAppend(a: string) returns (b: string)
    requires !Clean(a)
    ensures Parse(a + "," + b) != Parse(a) + Parse(b)
  {
    var st := ParseScan(a, START);
    b := if st.name == "" then "x" else "x:INFO";
    ScanConcat(a, b, START);
    var next := Flush(st.(isCat := true));
    assert next == st.(isCat := true) && Parse(a) == st.list;
    if st.name == "" {
      assert ParseScan("x", next) == ParseScan("", next.(name := "x"));
      assert ParseScan("x", START) == ParseScan("", START.(name := "x"));
    } else {
      OneField(next, "x", Info);
      OneField(START, "x", Info);
      assert "x" + ":" + ToString(Info) == b;
      assert Parse(a + "," + b) == st.list + [Category(st.name + "x", Info)];
      assert START.name + "x" == "x";
      assert Parse(a) + Parse(b) == st.list + [Category("x", Info)];
      assert (st.list + [Category(st.name + "x", Info)])[|st.list|].name == st.name + "x";
      assert (st.list + [Category("x", Info)])[|st.list|].name == "x";
    }
  }

  /** Appending a text to another adds up their categories if and only if the first one ends clean. */
  lemma AppendsExactly(a: string)
    ensures Clean(a) <==> forall b :: Parse(a + "," + b) == Parse(a) + Parse(b)
  {
    if Clean(a) {
      forall b
        ensures Parse(a + "," + b) == Parse(a) + Parse(b)
      {
        CleanAppends(a, b);
      }
    } else {
      var b := UncleanDoesNotAppend(a);
    }
  }

  // ---------------------------------------------------------------- printing

  /** A name that the text form can carry. */
  ghost predicate Printable(c: Category) {
    c.name != "" && ':' !in c.name && ',' !in c.name && c.level != Unknown
  }

  function PrintField(c: Category): string {
    c.name + ":" + ToString(c.level)
  }

  /** Appends a field or a text to what is there, as `setCategories` does. */
  function Extend(text: string, more: string): string {
    if text == "" then more else text + "," + more
  }

  function Print(list: seq<Category>): string {
    if list == [] then "" else Extend(Print(list[..|list| - 1]), PrintField(list[|list| - 1]))
  }

  lemma {:induction false} ScanName(name: string, rest: string, st: Scan)
    requires st.isCat && ':' !in name && ',' !in name
    ensures ParseScan(name + rest, st) == ParseScan(rest, st.(name := st.name + name))
    decreases |name|
  {
    if name == "" {
      assert name + rest == rest;
      assert st.name + name == st.name;
    } else {
      ScanName(name[1..], rest, st.(name := st.name + [name[0]]));
      assert (name + rest)[1..] == name[1..] + rest;
      assert st.name + [name[0]] + name[1..] == st.name + name;
    }
  }

  lemma {:induction false} OneField(st: Scan, name: string, level: Level)
    requires st.isCat && ':' !in name && ',' !in name && level != Unknown
    ensures ParseScan(name + ":" + ToString(level), st) ==
            st.(isCat := false, name := st.name + name, level := level)
  {
    var w := ToString(level);
    assert name + ":" + w == name + (":" + w);
    ScanName(name, ":" + w, st);
    var named := st.(name := st.name + name);
    assert (":" + w)[1..] == w;
    assert ParseScan(":" + w, named) == ParseScan(w, named.(isCat := false));
    ScanLevel(named.(isCat := false), level);
  }

  lemma {:induction false} ScanLevel(st: Scan, level: Level)
    requires !st.isCat && level != Unknown
    ensures ParseScan(ToString(level), st) == st.(level := level)
  {
    var w := ToString(level);
    assert w[0] != ':' && w[0] != ',';
    FromPrefixOfName(level, "");
    assert w + "" == w;
    assert w[Width(w, st)..] == "";
  }

  /** The text reads as the list and ends clean. */
  ghost predicate ReadsAs(text: string, list: seq<Category>) {
    Parse(text) == list && Clean(text)
  }

  lemma FieldReadsBack(c: Category)
    requires Printable(c)
    ensures ReadsAs(PrintField(c), [c])
  {
    OneField(START, c.name, c.level);
    assert START.name + c.name == c.name;
  }

  lemma {:induction false} NameOnly(name: string)
    requires ':' !in name && ',' !in name
    ensures ParseScan(name, START) == START.(name := name)
  {
    ScanName(name, "", START);
    assert name + "" == name && "" + name == name;
  }

  /** A name without a level is left over and runs into the next name. */
  lemma HalfFieldDoesNotAppend(name: string, c: Category)
    requires name != "" && ':' !in name && ',' !in name && Printable(c)
    ensures !Clean(name)
    ensures Parse(name + "," + PrintField(c)) == [Category(name + c.name, c.level)]
    ensures Parse(name) + Parse(PrintField(c)) == [c]
  {
    NameOnly(name);
    ScanConcat(name, PrintField(c), START);
    OneField(START.(name := name), c.name, c.level);
    FieldReadsBack(c);
  }

  lemma EmptyReads()
    ensures ReadsAs("", [])
  {
    assert ParseScan("", START) == START;
  }

  lemma ExtendReads(a: string, x: seq<Category>, b: string, y: seq<Category>)
    requires ReadsAs(a, x) && ReadsAs(b, y)
    ensures ReadsAs(Extend(a, b), x + y)
  {
    if a == "" {
      EmptyReads();
      assert x + y == y;
    } else {
      CleanAppends(a, b);
    }
  }

  /** Printing a list of categories and parsing the text gives the list back, and the text ends clean. */
  lemma {:induction false} PrintRoundTrip(list: seq<Category>)
    requires forall i :: 0 <= i < |list| ==> Printable(list[i])
    ensures ReadsAs(Print(list), list)
  {
    if list == [] {
      EmptyReads();
    } else {
      var before, last := list[..|list| - 1], list[|list| - 1];
      PrintRoundTrip(before);
      FieldReadsBack(last);
      ExtendReads(Print(before), before, PrintField(last), [last]);
      assert before + [last] == list;
    }
  }
}
