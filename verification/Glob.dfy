/** `Str::wildCardMatch`: glob patterns over C strings. */
module Glob {
  /** A C string holds no terminator; `At` reads the terminator just past its end and nothing beyond. */
  ghost predicate CString(s: string) {
    forall i :: 0 <= i < |s| ==> s[i] != '\0'
  }

  function At(s: string, i: nat): char
    requires i <= |s|
  {
    if i < |s| then s[i] else '\0'
  }

  /** What `c_str()` shows of a string: the part before the first terminator. */
  function CStr(s: string): (r: string)
    ensures CString(r) && r <= s
    ensures r != s ==> s[|r|] == '\0'
  {
    if s == "" || s[0] == '\0' then "" else [s[0]] + CStr(s[1..])
  }

  // ---------------------------------------------------------------- the language of a pattern

  /** The strings that one pattern character stands for. */
  ghost predicate Fits(c: char, piece: string) {
    if c == '*' then true else if c == '?' then |piece| == 1 else piece == [c]
  }

  function Join(pieces: seq<string>): string {
    if pieces == [] then "" else pieces[0] + Join(pieces[1..])
  }

  ghost predicate FitsAll(pattern: string, pieces: seq<string>) {
    |pieces| == |pattern| && forall k :: 0 <= k < |pattern| ==> Fits(pattern[k], pieces[k])
  }

  /** A string is in the language when it splits into one piece per pattern character. */
  ghost predicate InLanguage(pattern: string, str: string) {
    exists pieces :: FitsAll(pattern, pieces) && Join(pieces) == str
  }

  // ---------------------------------------------------------------- deciding it

  predicate Matches(pattern: string, str: string)
    decreases |pattern|, |str|
  {
    if pattern == "" then str == ""
    else if pattern[0] == '*' then
      Matches(pattern[1..], str) || (str != "" && Matches(pattern, str[1..]))
    else
      str != "" && (pattern[0] == '?' || pattern[0] == str[0]) && Matches(pattern[1..], str[1..])
  }

  lemma {:induction false} MatchesIsSound(pattern: string, str: string) returns (pieces: seq<string>)
    requires Matches(pattern, str)
    ensures FitsAll(pattern, pieces) && Join(pieces) == str
    decreases |pattern|, |str|
  {
    if pattern == "" {
      pieces := [];
    } else if pattern[0] == '*' && Matches(pattern[1..], str) {
      var rest := MatchesIsSound(pattern[1..], str);
      pieces := [""] + rest;
    } else if pattern[0] == '*' {
      var rest := MatchesIsSound(pattern, str[1..]);
      pieces := [[str[0]] + rest[0]] + rest[1..];
      assert Join(rest) == rest[0] + Join(rest[1..]);
      assert pieces[1..] == rest[1..];
      assert Join(pieces) == [str[0]] + (rest[0] + Join(rest[1..]));
    } else {
      var rest := MatchesIsSound(pattern[1..], str[1..]);
      pieces := [[str[0]]] + rest;
    }
  }

  lemma {:induction false} MatchesIsComplete(pattern: string, pieces: seq<string>)
    requires FitsAll(pattern, pieces)
    ensures Matches(pattern, Join(pieces))
    decreases |pattern|, |Join(pieces)|
  {
    if pattern != "" {
      var first, rest := pieces[0], pieces[1..];
      assert Fits(pattern[0], first);
      forall k | 0 <= k < |rest|
        ensures Fits(pattern[1..][k], rest[k])
      {
        assert Fits(pattern[k + 1], pieces[k + 1]);
      }
      MatchesIsComplete(pattern[1..], rest);
      if pattern[0] == '*' && first != "" {
        var shorter := [first[1..]] + rest;
        assert Join(pieces)[1..] == first[1..] + Join(rest) == Join(shorter);
        MatchesIsComplete(pattern, shorter);
      } else if pattern[0] == '*' {
        assert Join(pieces) == Join(rest);
      } else {
        assert Join(pieces)[1..] == Join(rest);
      }
    }
  }

  /** The recursive test accepts exactly the strings of the pattern's language. */
  lemma {:induction false} MatchesExactly(pattern: string, str: string)
    ensures Matches(pattern, str) <==> InLanguage(pattern, str)
  {
    if Matches(pattern, str) {
      var pieces := MatchesIsSound(pattern, str);
    }
    if InLanguage(pattern, str) {
      var pieces :| FitsAll(pattern, pieces) && Join(pieces) == str;
      MatchesIsComplete(pattern, pieces);
    }
  }

  /** The pointers `str + i` and `pattern + j` only ever move up to the terminators. */
  method WildCardMatch(str: string, i: nat, pattern: string, j: nat) returns (r: bool)
    requires CString(str) && CString(pattern) && i <= |str| && j <= |pattern|
    ensures r <==> InLanguage(pattern[j..], str[i..])
    decreases |pattern| - j, |str| - i
  {
    MatchesExactly(pattern[j..], str[i..]);
    var s, p := i, j;
    while At(pattern, p) != '\0'
      invariant i <= s <= |str| && j <= p <= |pattern|
      invariant Matches(pattern[p..], str[s..]) == Matches(pattern[j..], str[i..])
      decreases |pattern| - p
    {
      assert pattern[p..][1..] == pattern[p + 1..];
      assert s < |str| ==> str[s..][1..] == str[s + 1..];
      if pattern[p] == '?' {
        if At(str, s) == '\0' {
          return false;
        }
        s, p := s + 1, p + 1;
      } else if pattern[p] == '*' {
        var matched := WildCardMatch(str, s, pattern, p + 1);
        MatchesExactly(pattern[p + 1..], str[s..]);
        if matched {
          return true;
        }
        if At(str, s) != '\0' {
          matched := WildCardMatch(str, s + 1, pattern, p);
          MatchesExactly(pattern[p..], str[s + 1..]);
          return matched;
        }
        return false;
      } else {
        if At(str, s) != pattern[p] {
          return false;
        }
        s, p := s + 1, p + 1;
      }
    }
    return At(str, s) == '\0' && At(pattern, p) == '\0';
  }
}
