/** `Str::replaceFirstWithEscape`: substitution of the first format specifier that is not escaped. */
module Escape {
  predicate OccursAt(str: string, what: string, p: int) {
    0 <= p && p + |what| <= |str| && forall i :: 0 <= i < |what| ==> str[p + i] == what[i]
  }

  /** `std::string::find`: the first occurrence at or after `from`, or -1. */
  function Find(str: string, what: string, from: nat): (p: int)
    ensures p == -1 || (from <= p && OccursAt(str, what, p))
    ensures forall q :: from <= q < |str| && (p == -1 || q < p) ==> !OccursAt(str, what, q)
    ensures p == -1 && from <= |str| ==> !OccursAt(str, what, |str|)
    decreases |str| - from
  {
    if OccursAt(str, what, from) then from
    else if from >= |str| then -1
    else Find(str, what, from + 1)
  }

  // ---------------------------------------------------------------- what the routine is for

  /** A format specifier: a percent sign and then none. */
  ghost predicate Specifier(what: string) {
    |what| >= 2 && what[0] == '%' && forall i :: 1 <= i < |what| ==> what[i] != '%'
  }

  /** The text begins with an escaped occurrence. */
  predicate Escaped(s: string, what: string) {
    s != "" && s[0] == '%' && OccursAt(s, what, 1)
  }

  /**
   Read from the left: the sign in front of an escaped occurrence is dropped, the first occurrence that
   is not escaped is replaced, and what follows stays.
   */
  function Substituted(s: string, what: string, with: string): string
    decreases |s|
  {
    if s == "" then ""
    else if Escaped(s, what) then what + Substituted(s[1 + |what|..], what, with)
    else if OccursAt(s, what, 0) then with + s[|what|..]
    else [s[0]] + Substituted(s[1..], what, with)
  }

  // ---------------------------------------------------------------- what the routine does

  ghost predicate EndsSigned(front: string) {
    front != "" && front[|front| - 1] == '%'
  }

  /**
   The loop of the routine on the string `front + rest`, with nothing to be found before `rest`.  At an
   escaped occurrence the sign is erased and the search goes on three characters further.
   */
  ghost function Replaced(front: string, rest: string, what: string, with: string): string
    decreases |rest|
  {
    if rest == "" then front
    else if !OccursAt(rest, what, 0) then Replaced(front + [rest[0]], rest[1..], what, with)
    else if !EndsSigned(front) then front + (with + rest[|what|..])
    else Resumed(front[..|front| - 1], rest, what, with)
  }

  /** The search goes on three characters into `rest`. */
  ghost function Resumed(front: string, rest: string, what: string, with: string): string
    requires rest != ""
    decreases |rest|, 0
  {
    if |rest| <= 3 then front + rest else Replaced(front + rest[..3], rest[3..], what, with)
  }

  /** At an escaped occurrence the sign is dropped. */
  lemma {:induction false} EscapedRound(front: string, rest: string, what: string, with: string)
    requires Specifier(what) && Escaped(rest, what)
    ensures rest[1..] != "" && Replaced(front, rest, what, with) == Resumed(front, rest[1..], what, with)
  {
    var here, after := front + ['%'], rest[1..];
    EscapedShape(rest, what);
    assert Replaced(front, rest, what, with) == Replaced(here, after, what, with);
    assert EndsSigned(here) && here[..|here| - 1] == front;
  }

  /** The parts of a text that begins with an escaped occurrence. */
  lemma EscapedShape(s: string, what: string)
    requires Specifier(what) && Escaped(s, what)
    ensures !OccursAt(s, what, 0) && OccursAt(s[1..], what, 0)
    ensures 1 + |what| <= |s| && s[1..] == what + s[1 + |what|..]
  {
    assert s[1 + 0] == what[0] && what[1] != '%';
    var t := s[1..];
    forall i | 0 <= i < |what|
      ensures t[0 + i] == what[i]
    {
      assert t[i] == s[1 + i];
    }
    assert t[..|what|] == what && t[|what|..] == s[1 + |what|..];
    assert t == t[..|what|] + t[|what|..];
  }

  /** Over a stretch without percent signs nothing is found. */
  lemma {:induction false} Stretch(front: string, w: string, rest: string, what: string, with: string)
    requires Specifier(what) && '%' !in w
    ensures Replaced(front, w + rest, what, with) == Replaced(front + w, rest, what, with)
    decreases |w|
  {
    if w == "" {
      assert w + rest == rest && front + w == front;
    } else {
      var all := w + rest;
      assert all[0] == w[0] != '%' && all[1..] == w[1..] + rest;
      Stretch(front + [w[0]], w[1..], rest, what, with);
      assert (front + [w[0]]) + w[1..] == front + w;
    }
  }

  /** The second and later characters of a specifier hold no percent sign. */
  lemma TailUnsigned(what: string, n: nat)
    requires Specifier(what) && 1 <= n <= |what|
    ensures '%' !in what[n..]
  {
    forall i | 0 <= i < |what[n..]|
      ensures what[n..][i] != '%'
    {
      assert what[n..][i] == what[n + i];
    }
  }

  /** Past an escaped occurrence of three or more characters the search goes on as from its end. */
  lemma {:induction false} PastLong(front: string, tail: string, what: string, with: string)
    requires Specifier(what) && |what| >= 3
    ensures Resumed(front, what + tail, what, with) == Replaced(front + what, tail, what, with)
  {
    var all, w := what + tail, what[3..];
    assert all[..3] == what[..3] && all[3..] == w + tail;
    TailUnsigned(what, 3);
    Stretch(front + what[..3], w, tail, what, with);
    assert (front + what[..3]) + w == front + what;
    if |all| <= 3 {
      assert tail == "" && front + all == front + what;
    }
  }

  /** Past one of two characters as well, if there is no other one right behind it. */
  lemma {:induction false} PastTwo(front: string, tail: string, what: string, with: string)
    requires Specifier(what) && |what| == 2 && !OccursAt(tail, what, 0)
    ensures Resumed(front, what + tail, what, with) == Replaced(front + what, tail, what, with)
  {
    var all, here := what + tail, front + what;
    if tail == "" {
      assert front + all == here;
    } else {
      assert Replaced(here, tail, what, with) == Replaced(here + [tail[0]], tail[1..], what, with);
      assert all[..3] == what + [tail[0]] && all[3..] == tail[1..];
      assert front + (what + [tail[0]]) == here + [tail[0]];
      if |tail| == 1 {
        assert front + all == here + [tail[0]];
      }
    }
  }

  // ---------------------------------------------------------------- when it does what it is for

  /** The occurrence to replace stands right behind an escaped one, where the search does not look. */
  predicate Missed(s: string, what: string)
    decreases |s|
  {
    if s == "" then false
    else if Escaped(s, what) then
      var tail := s[1 + |what|..];
      (|what| == 2 && OccursAt(tail, what, 0)) || Missed(tail, what)
    else !OccursAt(s, what, 0) && Missed(s[1..], what)
  }

  /** The part that is done does not escape an occurrence at the beginning of the rest. */
  ghost predicate Apart(front: string, rest: string, what: string) {
    EndsSigned(front) ==> !OccursAt(rest, what, 0)
  }

  lemma ApartNext(front: string, rest: string, what: string)
    requires rest != "" && !Escaped(rest, what)
    ensures Apart(front + [rest[0]], rest[1..], what)
  {
    var t := rest[1..];
    if OccursAt(t, what, 0) && rest[0] == '%' {
      forall i | 0 <= i < |what|
        ensures rest[1 + i] == what[i]
      {
        assert t[0 + i] == what[i];
      }
    }
  }

  /** An occurrence is not the sign of an escaped one. */
  lemma PlainShape(s: string, what: string)
    requires Specifier(what) && OccursAt(s, what, 0)
    ensures !Escaped(s, what) && s[0] == '%' && s[1] == what[1]
  {
    assert s[0 + 0] == what[0] && s[0 + 1] == what[1];
  }

  lemma ApartAfter(front: string, tail: string, what: string)
    requires Specifier(what)
    ensures Apart(front + what, tail, what)
  {
    assert (front + what)[|front + what| - 1] == what[|what| - 1];
  }

  /** Past an escaped occurrence, unless the next one is missed. */
  lemma {:induction false} PastEscaped(front: string, rest: string, tail: string, what: string, with: string)
    requires Specifier(what) && Escaped(rest, what) && tail == rest[1 + |what|..]
    requires |what| == 2 ==> !OccursAt(tail, what, 0)
    ensures Replaced(front, rest, what, with) == Replaced(front + what, tail, what, with)
    ensures Apart(front + what, tail, what)
  {
    EscapedRound(front, rest, what, with);
    EscapedShape(rest, what);
    ApartAfter(front, tail, what);
    if |what| == 2 {
      PastTwo(front, tail, what, with);
    } else {
      PastLong(front, tail, what, with);
    }
  }

  lemma {:induction false} ReplacesRest(front: string, rest: string, what: string, with: string)
    requires Specifier(what) && Apart(front, rest, what) && !Missed(rest, what)
    ensures Replaced(front, rest, what, with) == front + Substituted(rest, what, with)
    decreases |rest|
  {
    if rest == "" {
      assert front + "" == front;
    } else if Escaped(rest, what) {
      var tail := rest[1 + |what|..];
      PastEscaped(front, rest, tail, what, with);
      ReplacesRest(front + what, tail, what, with);
      Reassociated(front, what, Substituted(tail, what, with));
    } else if !OccursAt(rest, what, 0) {
      ApartNext(front, rest, what);
      ReplacesRest(front + [rest[0]], rest[1..], what, with);
      Reassociated(front, [rest[0]], Substituted(rest[1..], what, with));
    }
  }

  lemma Reassociated(a: string, b: string, c: string)
    ensures (a + b) + c == a + (b + c)
  {
  }

  lemma {:induction false} NeverMissed(s: string, what: string)
    requires |what| >= 3
    ensures !Missed(s, what)
    decreases |s|
  {
    if s != "" {
      NeverMissed(s[1..], what);
      if Escaped(s, what) {
        NeverMissed(s[1 + |what|..], what);
      }
    }
  }

  /** For a specifier of at least three characters the routine does what it is for, on every string. */
  lemma {:induction false} ReplacesFirst(str: string, what: string, with: string)
    requires Specifier(what) && |what| >= 3
    ensures Replaced("", str, what, with) == Substituted(str, what, with)
  {
    NeverMissed(str, what);
    ReplacesRest("", str, what, with);
    assert "" + Substituted(str, what, with) == Substituted(str, what, with);
  }

  // ---------------------------------------------------------------- when it does not

  /** What is done stays, but for its last character. */
  lemma {:induction false} FrontKept(front: string, rest: string, what: string, with: string, i: nat)
    requires i + 1 < |front|
    ensures var r := Replaced(front, rest, what, with); i < |r| && r[i] == front[i]
    decreases |rest|
  {
    if rest != "" {
      if !OccursAt(rest, what, 0) {
        FrontKept(front + [rest[0]], rest[1..], what, with, i);
      } else if EndsSigned(front) && |rest| > 3 {
        FrontKept(front[..|front| - 1] + rest[..3], rest[3..], what, with, i);
      }
    }
  }

  /** The percent sign of a missed occurrence stays. */
  lemma {:induction false} SignStays(front: string, tail: string, what: string, with: string)
    requires Specifier(what) && |what| == 2 && OccursAt(tail, what, 0)
    ensures var r := Resumed(front, what + tail, what, with); |front| + 2 < |r| && r[|front| + 2] == '%'
  {
    PlainShape(tail, what);
    var all := what + tail;
    var here, rest := front + all[..3], all[3..];
    assert here == front + what + ['%'] && rest == tail[1..];
    assert rest[0] == what[1];
    FrontKept(here + [rest[0]], rest[1..], what, with, |front| + 2);
  }

  /** ... where a replaced one would not. */
  lemma {:induction false} MissedHere(front: string, rest: string, tail: string, what: string)
    requires Specifier(what) && |what| == 2 && Escaped(rest, what)
    requires tail == rest[1 + |what|..] && OccursAt(tail, what, 0)
    ensures Replaced(front, rest, what, "x") != front + Substituted(rest, what, "x")
  {
    EscapedRound(front, rest, what, "x");
    EscapedShape(rest, what);
    SignStays(front, tail, what, "x");
    PlainShape(tail, what);
    var sub := what + ("x" + tail[2..]);
    assert Substituted(rest, what, "x") == sub;
    assert (front + sub)[|front| + 2] == 'x';
  }

  lemma {:induction false} MissedRest(front: string, rest: string, what: string)
    requires Specifier(what) && Apart(front, rest, what) && Missed(rest, what)
    ensures Replaced(front, rest, what, "x") != front + Substituted(rest, what, "x")
    decreases |rest|
  {
    if Escaped(rest, what) {
      var tail := rest[1 + |what|..];
      if |what| == 2 && OccursAt(tail, what, 0) {
        MissedHere(front, rest, tail, what);
      } else {
        PastEscaped(front, rest, tail, what, "x");
        MissedRest(front + what, tail, what);
        Reassociated(front, what, Substituted(tail, what, "x"));
      }
    } else {
      ApartNext(front, rest, what);
      MissedRest(front + [rest[0]], rest[1..], what);
      Reassociated(front, [rest[0]], Substituted(rest[1..], what, "x"));
    }
  }

  /** On a given string the routine does what it is for if and only if it does not miss the occurrence. */
  lemma {:induction false} ReplacesExactly(str: string, what: string)
    requires Specifier(what)
    ensures (forall with :: Replaced("", str, what, with) == Substituted(str, what, with)) <==> !Missed(str, what)
  {
    if Missed(str, what) {
      MissedRest("", str, what);
      assert "" + Substituted(str, what, "x") == Substituted(str, what, "x");
    } else {
      forall with
        ensures Replaced("", str, what, with) == Substituted(str, what, with)
      {
        ReplacesRest("", str, what, with);
        assert "" + Substituted(str, what, with) == Substituted(str, what, with);
      }
    }
  }

  /** With a two-character specifier the search jumps over an occurrence that follows an escaped one. */
  lemma {:induction false} TwoCharactersMiss(what: string)
    requires Specifier(what) && |what| == 2
    ensures Missed("%" + what + what, what)
  {
    var str := "%" + what + what;
    assert str == ['%', what[0], what[1], what[0], what[1]];
    assert str[3..] == what;
    assert Escaped(str, what) && OccursAt(what, what, 0);
  }

  /** Exactly the specifiers of two characters are at risk. */
  lemma {:induction false} ReplacesFirstExactly(what: string)
    requires Specifier(what)
    ensures (forall str, with :: Replaced("", str, what, with) == Substituted(str, what, with)) <==> |what| >= 3
  {
    if |what| >= 3 {
      forall str, with
        ensures Replaced("", str, what, with) == Substituted(str, what, with)
      {
        ReplacesFirst(str, what, with);
      }
    } else {
      TwoCharactersMiss(what);
      ReplacesExactly("%" + what + what, what);
    }
  }

  // ---------------------------------------------------------------- the routine itself

  lemma OccursInRest(str: string, what: string, n: nat, d: nat)
    requires n <= |str|
    ensures OccursAt(str[n..], what, d) <==> OccursAt(str, what, n + d)
  {
    var rest := str[n..];
    if d + |what| <= |rest| {
      if OccursAt(rest, what, d) {
        forall i | 0 <= i < |what|
          ensures str[n + d + i] == what[i]
        {
          assert rest[d + i] == what[i];
        }
      }
      if OccursAt(str, what, n + d) {
        forall i | 0 <= i < |what|
          ensures rest[d + i] == what[i]
        {
          assert str[n + d + i] == what[i];
        }
      }
    }
  }

  /** The search from `n` passes over what holds no occurrence. */
  lemma {:induction false} SearchPasses(str: string, what: string, with: string, n: nat, m: nat)
    requires n <= m <= |str| && forall q :: n <= q < m ==> !OccursAt(str, what, q)
    ensures Replaced(str[..n], str[n..], what, with) == Replaced(str[..m], str[m..], what, with)
    decreases m - n
  {
    if n < m {
      OccursInRest(str, what, n, 0);
      assert str[..n] + [str[n..][0]] == str[..n + 1] && str[n..][1..] == str[n + 1..];
      SearchPasses(str, what, with, n + 1, m);
    }
  }

  /** The sign in front of the occurrence at `m` is erased. */
  lemma {:induction false} EraseStep(str: string, what: string, with: string, m: nat, next: string)
    requires what != "" && 0 < m && OccursAt(str, what, m) && str[m - 1] == '%'
    requires next == str[..m - 1] + str[m..]
    ensures var n := if m + 2 <= |next| then m + 2 else |next|;
            Replaced(str[..m], str[m..], what, with) == Replaced(next[..n], next[n..], what, with)
  {
    var front, rest := str[..m - 1], str[m..];
    OccursInRest(str, what, m, 0);
    assert str[..m][..m - 1] == front;
    assert Replaced(str[..m], rest, what, with) == Resumed(front, rest, what, with);
    if |rest| > 3 {
      assert next[..m + 2] == front + rest[..3] && next[m + 2..] == rest[3..];
    } else {
      assert next[..|next|] == next && next[|next|..] == "";
    }
  }

  lemma {:induction false} ReplaceStep(str: string, what: string, with: string, m: nat)
    requires what != "" && OccursAt(str, what, m) && !(m > 0 && str[m - 1] == '%')
    ensures Replaced(str[..m], str[m..], what, with) == str[..m] + with + str[m + |what|..]
  {
    OccursInRest(str, what, m, 0);
    assert str[m..][|what|..] == str[m + |what|..];
    Reassociated(str[..m], with, str[m + |what|..]);
  }

  /** The routine on its string argument, edited in place; it terminates for every `what`. */
  method ReplaceFirstWithEscape(given: string, what: string, with: string) returns (str: string)
    ensures str == if what == "" then with + given else Replaced("", given, what, with)
    ensures Specifier(what) && !Missed(given, what) ==> str == Substituted(given, what, with)
  {
    if Specifier(what) {
      ReplacesExactly(given, what);
    }
    str := given;
    var foundAt := Find(str, what, 0);
    ghost var from := 0;
    assert given[..0] == "" && given[0..] == given;
    while foundAt != -1
      invariant 0 <= from <= |str| && (foundAt == -1 || (from <= foundAt && OccursAt(str, what, foundAt)))
      invariant what == "" ==> foundAt == 0 && str == given
      invariant what != "" ==> forall q :: from <= q <= |str| && (foundAt == -1 || q < foundAt) ==> !OccursAt(str, what, q)
      invariant what != "" ==> Replaced(str[..from], str[from..], what, with) == Replaced("", given, what, with)
      decreases |str|, if foundAt == -1 then 0 else 1
    {
      if what != "" {
        SearchPasses(str, what, with, from, foundAt);
      }
      if foundAt > 0 && str[foundAt - 1] == '%' {
        ghost var before := str;
        str := str[..foundAt - 1] + str[foundAt..];
        if what != "" {
          EraseStep(before, what, with, foundAt, str);
        }
        from := if foundAt + 2 <= |str| then foundAt + 2 else |str|;
        foundAt := foundAt + 1;
        foundAt := Find(str, what, foundAt + 1);
      } else {
        if what != "" {
          ReplaceStep(str, what, with, foundAt);
        }
        str := str[..foundAt] + with + str[foundAt + |what|..];
        return;
      }
    }
    if what != "" {
      SearchPasses(str, what, with, from, |str|);
      assert str[..|str|] == str && str[|str|..] == "";
    }
  }
}
