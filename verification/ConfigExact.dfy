/** Exactly which values a setting's line carries: the plain ones. */
module ConfigExact {
  import opened Levels
  import opened Escape
  import opened ConfigRegistry
  import opened ConfigText
  import opened ConfigRoundTrip

  // ---------------------------------------------------------------- the quoted value

  /** Dropping escapes keeps the first character and never adds one; an escaped quote costs one. */
  lemma {:induction false} DropEscapesShrinks(v: string, q: int)
    requires q == -1 || 2 <= q < |v|
    ensures var r := DropEscapes(v, q);
            && |r.0| <= |v|
            && (q != -1 && v[q - 1] == '\\' ==> |r.0| < |v|)
            && (v != "" ==> r.0 != "" && r.0[0] == v[0])
    decreases if q == -1 then 0 else |v| - q
  {
    if q != -1 && v[q - 1] == '\\' {
      var v' := v[..q - 1] + v[q..];
      assert |v'| == |v| - 1 && v'[0] == v[0];
      DropEscapesShrinks(v', Find(v', QUOTE, q + 2));
    }
  }

  lemma {:induction false} DropEscapesLength(v: string, q: int)
    requires q == -1 || 1 <= q < |v|
    ensures |DropEscapes(v, q).0| <= |v|
    decreases if q == -1 then 0 else |v| - q
  {
    if q != -1 && v[q - 1] == '\\' {
      var v' := v[..q - 1] + v[q..];
      DropEscapesLength(v', Find(v', QUOTE, q + 2));
    }
  }

  lemma StrippedShrinks(w: string, start: nat, end: int)
    requires end == -1 || 1 <= end
    ensures |Stripped(w, start, end)| <= |w|
  {
  }

  lemma UnquotedShrinks(v: string)
    ensures |Unquoted(v)| <= |v|
  {
    var start := Find(v, QUOTE, 0);
    if start != -1 {
      var e := Find(v, QUOTE, start + 1);
      DropEscapesLength(v, e);
      StrippedShrinks(DropEscapes(v, e).0, start, DropEscapes(v, e).1);
    }
  }

  /** A quote in the text is found no later than it stands. */
  lemma {:induction false} FoundBy(q: string, from: nat, i: nat)
    requires from <= i < |q| && q[i] == '"'
    ensures from <= Find(q, QUOTE, from) <= i
  {
    assert OccursAt(q, QUOTE, i);
  }

  /** The first quote behind the opening one. */
  lemma {:induction false} SecondQuote(v: string, q: string)
    requires q == "\"" + v + "\""
    ensures Find(q, QUOTE, 0) == 0
    ensures 1 <= Find(q, QUOTE, 1) <= |v| + 1
    ensures Find(q, QUOTE, 1) == |v| + 1 <==> '"' !in v
    ensures v != "" ==> (Find(q, QUOTE, 1) == 1 <==> v[0] == '"')
  {
    FoundBy(q, 0, 0);
    FoundBy(q, 1, |v| + 1);
    var e := Find(q, QUOTE, 1);
    assert q[e + 0] == QUOTE[0];
    if e <= |v| {
      assert v[e - 1] == q[e];
    }
    if '"' in v {
      var k :| 0 <= k < |v| && v[k] == '"';
      assert q[k + 1] == v[k];
      FoundBy(q, 1, k + 1);
    }
    if v != "" && v[0] == '"' {
      assert q[1] == v[0];
      FoundBy(q, 1, 1);
    }
  }

  /** When the first quote inside is escaped the value is not given back. */
  lemma {:induction false} EscapedFails(v: string, q: string, e: nat)
    requires q == "\"" + v + "\"" && e == Find(q, QUOTE, 1) && 2 <= e && q[e - 1] == '\\'
    ensures Unquoted(q) != v
  {
    SecondQuote(v, q);
    DropEscapesShrinks(q, e);
    assert q[1] == v[0];
    StrippedFails(v, DropEscapes(q, e).0, DropEscapes(q, e).1);
  }

  lemma StrippedFails(v: string, w: string, end: int)
    requires v != "" && v[0] != '"' && w != "" && w[0] == '"' && |w| <= |v| + 1
    requires end == -1 || 1 <= end < |w|
    ensures Stripped(w, 0, end) != v
  {
  }

  lemma {:induction false} UnescapedExactly(v: string, q: string, e: nat)
    requires q == "\"" + v + "\"" && e == Find(q, QUOTE, 1) && (e < 2 || q[e - 1] != '\\')
    ensures Unquoted(q) == Stripped(q, 0, e)
    ensures Stripped(q, 0, e) == v <==> v != "" && '"' !in v
  {
    SecondQuote(v, q);
    assert DropEscapes(q, e) == (q, e);
    if e == |v| + 1 && v != "" {
      assert q[1..1 + |v|] == v;
    }
  }

  /** Stripping the quotes gives the value back if and only if it is plain. */
  lemma QuotedExactly(v: string, q: string)
    requires q == "\"" + v + "\""
    ensures Unquoted(q) == v <==> Plain(v)
  {
    var e := Find(q, QUOTE, 1);
    SecondQuote(v, q);
    assert v != "" ==> q[|v|] == v[|v| - 1];
    if e >= 2 && q[e - 1] == '\\' {
      EscapedFails(v, q, e);
    } else {
      UnescapedExactly(v, q, e);
    }
  }

  // ---------------------------------------------------------------- the line

  /** Trimming the end keeps a prefix that reaches beyond any visible character. */
  lemma {:induction false} RTrimKeeps(s: string, p: nat) returns (m: nat)
    requires p < |s| && !IsSpace(s[p])
    ensures p < m <= |s| && RTrim(s) == s[..m] && !IsSpace(s[m - 1])
  {
    if IsSpace(s[|s| - 1]) {
      var t := s[..|s| - 1];
      m := RTrimKeeps(t, p);
      assert t[..m] == s[..m];
    } else {
      m := |s|;
      assert s[..m] == s;
    }
  }

  /** A comment is cut off where two signs stand, or the line stays. */
  lemma CommentCut(s: string) returns (cut: nat)
    ensures cut <= |s| && WithoutComment(s) == s[..cut]
    ensures cut == |s| || (cut + 1 < |s| && s[cut] == '#' && s[cut + 1] == '#')
  {
    var c := WithoutComment(s);
    cut := |c|;
    if c == s {
      assert s[..|s|] == s;
    } else {
      assert OccursAt(s, COMMENT, cut);
      assert s[cut + 0] == COMMENT[0] && s[cut + 1] == COMMENT[1];
    }
  }

  /** What the comment and the blanks before it leave: the line, or a part that lacks the end of the value. */
  lemma LineCut(w: string, v: string, s: string) returns (m: nat)
    requires Word(w) && s == SettingLine(w, v)
    ensures |w| + 4 <= m <= |s| && Trim(WithoutComment(s)) == s[..m]
    ensures !IsSpace(s[m - 1]) && (m == |s| || m <= |s| - 3)
  {
    var cut := CommentCut(s);
    LineCharacters(w, v);
    if cut == |s| {
      TrimVisible(s);
      m := |s|;
    } else {
      m := PrefixTrimmed(s, cut, |w| + 3);
    }
  }

  /** Trimming a prefix that begins visibly. */
  lemma PrefixTrimmed(s: string, cut: nat, p: nat) returns (m: nat)
    requires p < cut <= |s| && !IsSpace(s[p]) && !IsSpace(s[0])
    ensures p < m <= cut && Trim(s[..cut]) == s[..m] && !IsSpace(s[m - 1])
  {
    m := RTrimKeeps(s[..cut], p);
    assert s[..cut][..m] == s[..m];
  }

  /** The two sides of the equals sign in what is left of the line. */
  lemma CutSides(w: string, v: string, m: nat)
    requires Word(w) && |w| + 4 <= m <= |SettingLine(w, v)| && !IsSpace(SettingLine(w, v)[m - 1])
    ensures var line := SettingLine(w, v)[..m];
            && Find(line, "=", 0) == |w| + 1
            && Trim(Upper(line[..|w| + 1])) == w
            && ValueOf(line[|w| + 2..]) == Unquoted(line[|w| + 3..])
  {
    var line := SettingLine(w, v)[..m];
    LineCharacters(w, v);
    FindChar(line, '=', 0, |w| + 1);
    WordIsCString(w);
    assert line[..|w| + 1] == w + " ";
    UpperConcat(w, " ");
    assert Upper(w + " ") == w + " ";
    TrimBack(w);
    var x := line[|w| + 3..];
    assert line[|w| + 2..] == " " + x;
    TrimFront(x);
  }

  /** The right side of the whole line is the value in quotes. */
  lemma QuotedSide(w: string, v: string, s: string, n: nat)
    requires s == SettingLine(w, v) && n == |w| + 3
    ensures n <= |s| && s[n..] == "\"" + v + "\"" && |s[n..]| == |v| + 2
  {
    assert s == (w + " = ") + ("\"" + v + "\"");
  }

  /** A line that lost its end gives a shorter value. */
  lemma CutIsShorter(v: string, x: string)
    requires |x| < |v|
    ensures Unquoted(x) != v
  {
    UnquotedShrinks(x);
  }

  lemma PlainIsNotCut(w: string, v: string, s: string)
    requires Word(w) && Plain(v) && s == SettingLine(w, v)
    ensures Trim(WithoutComment(s)) == s
  {
    LineCharacters(w, v);
    LineHasNoComment(w, v);
    TrimVisible(s);
  }

  /** What is left of the line gives the value if and only if the value is plain. */
  lemma CutValueExactly(w: string, v: string, s: string, m: nat, n: nat)
    requires Word(w) && s == SettingLine(w, v) && n == |w| + 3 < m && (m == |s| || m <= |s| - 3)
    requires Trim(WithoutComment(s)) == s[..m]
    ensures Unquoted(s[n..m]) == v <==> Plain(v)
  {
    QuotedSide(w, v, s, n);
    if m == |s| {
      assert s[n..m] == s[n..];
      QuotedExactly(v, s[n..]);
    } else {
      CutIsShorter(v, s[n..m]);
      if Plain(v) {
        PlainIsNotCut(w, v, s);
        assert false;
      }
    }
  }

  lemma CutParses(st: State, w: string, t: ConfigType, v: string, m: nat)
    requires Word(w) && TypeFromString(w) == t && t != UnknownType && st.level != Unknown
    requires |w| + 4 <= m <= |SettingLine(w, v)| && !IsSpace(SettingLine(w, v)[m - 1])
    ensures ParseContent(st, SettingLine(w, v)[..m]) ==
            State(Set(st.registry, st.level, t, Unquoted(SettingLine(w, v)[|w| + 3..m])), st.level, true)
  {
    var line := SettingLine(w, v)[..m];
    LineCharacters(w, v);
    CutSides(w, v, m);
    assert line[|w| + 3..] == SettingLine(w, v)[|w| + 3..m];
  }

  lemma LineReadsExactly(st: State, w: string, t: ConfigType, v: string) returns (u: string)
    requires Word(w) && TypeFromString(w) == t && t != UnknownType && st.level != Unknown
    ensures ParseLine(st, SettingLine(w, v)) == State(Set(st.registry, st.level, t, u), st.level, true)
    ensures u == v <==> Plain(v)
  {
    var s := SettingLine(w, v);
    var m := LineCut(w, v, s);
    u := Unquoted(s[|w| + 3..m]);
    CutValueExactly(w, v, s, m, |w| + 3);
    CutParses(st, w, t, v, m);
    LineCharacters(w, v);
    TrimVisible(s);
    assert s[..2][0] == s[0] != COMMENT[0];
  }

  /**
   Whatever the value, a setting's line sets some value at the current level, and that is the value
   itself if and only if it is plain.
   */
  lemma SettingReadsExactly(st: State, t: ConfigType, v: string) returns (u: string)
    requires t != UnknownType && st.level != Unknown
    ensures ParseLine(st, SettingLine(TypeName(t), v)) == State(Set(st.registry, st.level, t, u), st.level, true)
    ensures u == v <==> Plain(v)
  {
    TypeIsWord(t);
    TypeReadsBack(t);
    u := LineReadsExactly(st, TypeName(t), t, v);
  }

  /** An empty value, a quote inside and a backslash at the end are not read back. */
  lemma NotReadBack(st: State, t: ConfigType, v: string) returns (u: string)
    requires t != UnknownType && st.level != Unknown
    requires v in ["", "a\"b", "a\\"]
    ensures ParseLine(st, SettingLine(TypeName(t), v)) == State(Set(st.registry, st.level, t, u), st.level, true)
    ensures u != v
  {
    u := SettingReadsExactly(st, t, v);
    assert "a\"b"[1] == '"' && "a\\"[1] == '\\';
  }
}
