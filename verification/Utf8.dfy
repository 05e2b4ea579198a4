/** `utf8canonical`, without its loop: decode one character, transform it, encode it shortest. */
module Utf8 {
  import opened Results

  type Byte = bv8
  type CodePoint = bv32

  datatype Error = InvalidUtf8 | InvalidCodePoint

  // ---------------------------------------------------------------- one character

  /** The number of bytes that a lead byte announces; 0 when it cannot lead. */
  function SequenceLength(b: Byte): (n: nat)
    ensures n <= 4
  {
    if b & 0x80 == 0 then 1
    else if b & 0xe0 == 0xc0 then 2
    else if b & 0xf0 == 0xe0 then 3
    else if b & 0xf8 == 0xf0 then 4
    else 0
  }

  function Decode1(a: Byte): CodePoint {
    a as bv32
  }

  function Decode2(a: Byte, b: Byte): CodePoint {
    ((a & 0x1f) as bv32 << 6) | (b & 0x3f) as bv32
  }

  function Decode3(a: Byte, b: Byte, c: Byte): CodePoint {
    ((a & 0xf) as bv32 << 12) | ((b & 0x3f) as bv32 << 6) | (c & 0x3f) as bv32
  }

  function Decode4(a: Byte, b: Byte, c: Byte, d: Byte): CodePoint {
    ((a & 0x7) as bv32 << 18) | ((b & 0x3f) as bv32 << 12) | ((c & 0x3f) as bv32 << 6) | (d & 0x3f) as bv32
  }

  /** The first character of a text and its number of bytes; what follows the lead byte is not checked. */
  function DecodeOne(s: seq<Byte>): (r: Result<(CodePoint, nat), Error>)
    requires s != []
    ensures r.Ok? ==> 1 <= r.value.1 <= |s|
  {
    var n := SequenceLength(s[0]);
    if n == 0 || n > |s| then Err(InvalidUtf8)
    else if n == 1 then Ok((Decode1(s[0]), 1))
    else if n == 2 then Ok((Decode2(s[0], s[1]), 2))
    else if n == 3 then Ok((Decode3(s[0], s[1], s[2]), 3))
    else Ok((Decode4(s[0], s[1], s[2], s[3]), 4))
  }

  function Low(v: CodePoint): Byte {
    (v & 0xff) as bv8
  }

  /** Encodes in as few bytes as possible. */
  function EncodeOne(v: CodePoint): (r: seq<Byte>)
    requires v <= 0x10ffff
    ensures 1 <= |r| <= 4
  {
    if v <= 0x7f then [Low(v)]
    else if v <= 0x7ff then [Low(0xc0 | (v >> 6)), Low(0x80 | (v & 0x3f))]
    else if v <= 0xffff then [Low(0xe0 | (v >> 12)), Low(0x80 | ((v >> 6) & 0x3f)), Low(0x80 | (v & 0x3f))]
    else [Low(0xf0 | (v >> 18)), Low(0x80 | ((v >> 12) & 0x3f)), Low(0x80 | ((v >> 6) & 0x3f)),
          Low(0x80 | (v & 0x3f))]
  }

  lemma Encode2Decodes(v: CodePoint)
    requires 0x7f < v <= 0x7ff
    ensures Low(0xc0 | (v >> 6)) & 0x80 != 0 && Low(0xc0 | (v >> 6)) & 0xe0 == 0xc0
    ensures Decode2(Low(0xc0 | (v >> 6)), Low(0x80 | (v & 0x3f))) == v
  {
  }

  lemma Encode3Decodes(v: CodePoint)
    requires 0x7ff < v <= 0xffff
    ensures var a := Low(0xe0 | (v >> 12)); a & 0x80 != 0 && a & 0xe0 != 0xc0 && a & 0xf0 == 0xe0
    ensures Decode3(Low(0xe0 | (v >> 12)), Low(0x80 | ((v >> 6) & 0x3f)), Low(0x80 | (v & 0x3f))) == v
  {
  }

  lemma Encode4Decodes(v: CodePoint)
    requires 0xffff < v <= 0x10ffff
    ensures var a := Low(0xf0 | (v >> 18));
            a & 0x80 != 0 && a & 0xe0 != 0xc0 && a & 0xf0 != 0xe0 && a & 0xf8 == 0xf0
    ensures Decode4(Low(0xf0 | (v >> 18)), Low(0x80 | ((v >> 12) & 0x3f)), Low(0x80 | ((v >> 6) & 0x3f)),
                    Low(0x80 | (v & 0x3f))) == v
  {
  }

  lemma Encode1Decodes(v: CodePoint)
    requires v <= 0x7f
    ensures Low(v) & 0x80 == 0 && Decode1(Low(v)) == v
  {
  }

  /** An encoded character is read back, whatever follows it. */
  lemma DecodeOneOfEncoded(v: CodePoint, rest: seq<Byte>)
    requires v <= 0x10ffff
    ensures DecodeOne(EncodeOne(v) + rest) == Ok((v, |EncodeOne(v)|))
  {
    if v <= 0x7f {
      Encode1Decodes(v);
    } else if v <= 0x7ff {
      Encode2Decodes(v);
    } else if v <= 0xffff {
      Encode3Decodes(v);
    } else {
      Encode4Decodes(v);
    }
  }

  // ---------------------------------------------------------------- whole texts

  function Decode(s: seq<Byte>): Result<seq<CodePoint>, Error>
    decreases |s|
  {
    if s == [] then Ok([])
    else
      var (v, n) :- DecodeOne(s);
      var rest :- Decode(s[n..]);
      Ok([v] + rest)
  }

  ghost predicate InRange(vs: seq<CodePoint>) {
    forall i :: 0 <= i < |vs| ==> vs[i] <= 0x10ffff
  }

  function Encode(vs: seq<CodePoint>): seq<Byte>
    requires InRange(vs)
  {
    if vs == [] then [] else EncodeOne(vs[0]) + Encode(vs[1..])
  }

  function Map(t: CodePoint -> CodePoint, vs: seq<CodePoint>): (r: seq<CodePoint>)
    ensures |r| == |vs| && forall i :: 0 <= i < |vs| ==> r[i] == t(vs[i])
  {
    if vs == [] then [] else [t(vs[0])] + Map(t, vs[1..])
  }

  /** One character at a time, as the loop does it. */
  function Canonical(s: seq<Byte>, t: CodePoint -> CodePoint): Result<seq<Byte>, Error>
    decreases |s|
  {
    if s == [] then Ok([])
    else
      var (v, n) :- DecodeOne(s);
      if t(v) > 0x10ffff then Err(InvalidCodePoint)
      else
        var rest :- Canonical(s[n..], t);
        Ok(EncodeOne(t(v)) + rest)
  }

  /** One round: what the first character contributes and what is left. */
  lemma {:induction false} CanonicalStep(s: seq<Byte>, t: CodePoint -> CodePoint, v: CodePoint, n: nat)
    requires s != [] && DecodeOne(s) == Ok((v, n)) && t(v) <= 0x10ffff
    ensures var rest := Canonical(s[n..], t);
            Canonical(s, t) == if rest.Ok? then Ok(EncodeOne(t(v)) + rest.value) else Err(rest.error)
  {
  }

  /**
   A text is accepted exactly when it decodes and the transform keeps every code point in range, and
   the result is the shortest encoding of the transformed code points.
   */
  lemma {:induction false} CanonicalIsEncodeMapDecode(s: seq<Byte>, t: CodePoint -> CodePoint)
    ensures Canonical(s, t).Ok? <==> Decode(s).Ok? && InRange(Map(t, Decode(s).value))
    ensures Canonical(s, t).Ok? ==> Canonical(s, t).value == Encode(Map(t, Decode(s).value))
    decreases |s|
  {
    if s != [] && DecodeOne(s).Ok? {
      var (v, n) := DecodeOne(s).value;
      CanonicalIsEncodeMapDecode(s[n..], t);
      if Decode(s[n..]).Ok? {
        var vs, rest := Decode(s).value, Decode(s[n..]).value;
        assert vs == [v] + rest && vs[1..] == rest;
        assert Map(t, vs) == [t(v)] + Map(t, rest);
        InRangeCons(t(v), Map(t, rest));
        assert Map(t, vs)[1..] == Map(t, rest);
      }
    }
  }

  lemma InRangeCons(v: CodePoint, vs: seq<CodePoint>)
    ensures InRange([v] + vs) <==> v <= 0x10ffff && InRange(vs)
  {
    var all := [v] + vs;
    assert all[0] == v;
    assert forall i :: 0 <= i < |vs| ==> all[i + 1] == vs[i];
  }

  lemma {:induction false} DecodeEncode(vs: seq<CodePoint>)
    requires InRange(vs)
    ensures Decode(Encode(vs)) == Ok(vs)
  {
    if vs != [] {
      var first, rest := EncodeOne(vs[0]), Encode(vs[1..]);
      DecodeEncode(vs[1..]);
      DecodeOneOfEncoded(vs[0], rest);
      assert (first + rest)[|first|..] == rest;
      assert [vs[0]] + vs[1..] == vs;
    }
  }

  // ---------------------------------------------------------------- length

  function EncodedLength(v: CodePoint): nat {
    if v <= 0x7f then 1 else if v <= 0x7ff then 2 else if v <= 0xffff then 3 else 4
  }

  /** A character takes at least as many bytes as its shortest encoding. */
  lemma DecodeOneLength(s: seq<Byte>)
    requires s != [] && DecodeOne(s).Ok?
    ensures EncodedLength(DecodeOne(s).value.0) <= DecodeOne(s).value.1
  {
    var n := SequenceLength(s[0]);
    if n == 1 {
      assert Decode1(s[0]) <= 0x7f;
    } else if n == 2 {
      Decode2Range(s[0], s[1]);
    } else if n == 3 {
      Decode3Range(s[0], s[1], s[2]);
    }
  }

  lemma Decode2Range(a: Byte, b: Byte)
    ensures Decode2(a, b) <= 0x7ff
  {
  }

  lemma Decode3Range(a: Byte, b: Byte, c: Byte)
    ensures Decode3(a, b, c) <= 0xffff
  {
  }

  /** The transform never makes an encoding longer. */
  ghost predicate NonExpanding(t: CodePoint -> CodePoint) {
    forall v :: EncodedLength(t(v)) <= EncodedLength(v)
  }

  lemma {:induction false} CanonicalLength(s: seq<Byte>, t: CodePoint -> CodePoint)
    requires NonExpanding(t) && Canonical(s, t).Ok?
    ensures |Canonical(s, t).value| <= |s|
    decreases |s|
  {
    if s != [] {
      var (v, n) := DecodeOne(s).value;
      DecodeOneLength(s);
      CanonicalLength(s[n..], t);
      assert |EncodeOne(t(v))| == EncodedLength(t(v)) <= EncodedLength(v) <= n;
    }
  }

  // ---------------------------------------------------------------- well-formed texts

  predicate Tail(b: Byte) {
    0x80 <= b <= 0xbf
  }

  /**
   The length of the `UTF8-char` of section 4 of RFC 3629 at the start of a text, or 0 when there is
   none.  With `surrogates` the code points 0xd800 to 0xdfff, which the section excludes, count too.
   */
  function CharLength(s: seq<Byte>, surrogates: bool): (n: nat)
    requires s != []
    ensures n <= |s|
  {
    if s[0] <= 0x7f then 1
    else if 0xc2 <= s[0] <= 0xdf && |s| >= 2 && Tail(s[1]) then 2
    else if |s| >= 3 && Tail(s[1]) && Tail(s[2]) &&
            ((s[0] == 0xe0 && 0xa0 <= s[1]) || 0xe1 <= s[0] <= 0xec ||
             (s[0] == 0xed && (surrogates || s[1] <= 0x9f)) || 0xee <= s[0] <= 0xef) then 3
    else if |s| >= 4 && Tail(s[1]) && Tail(s[2]) && Tail(s[3]) &&
            ((s[0] == 0xf0 && 0x90 <= s[1]) || 0xf1 <= s[0] <= 0xf3 || (s[0] == 0xf4 && s[1] <= 0x8f)) then 4
    else 0
  }

  predicate WellFormed(s: seq<Byte>, surrogates: bool)
    decreases |s|
  {
    s == [] || (CharLength(s, surrogates) > 0 && WellFormed(s[CharLength(s, surrogates)..], surrogates))
  }

  predicate Surrogate(v: CodePoint) {
    0xd800 <= v <= 0xdfff
  }

  lemma Encode2OfDecoded(a: Byte, b: Byte)
    requires 0xc2 <= a <= 0xdf && Tail(b)
    ensures SequenceLength(a) == 2 && 0x7f < Decode2(a, b) <= 0x7ff
    ensures EncodeOne(Decode2(a, b)) == [a, b]
  {
  }

  lemma Encode3OfDecoded(a: Byte, b: Byte, c: Byte)
    requires 0xe0 <= a <= 0xef && (a == 0xe0 ==> 0xa0 <= b) && Tail(b) && Tail(c)
    ensures SequenceLength(a) == 3 && 0x7ff < Decode3(a, b, c) <= 0xffff
    ensures EncodeOne(Decode3(a, b, c)) == [a, b, c]
    ensures Surrogate(Decode3(a, b, c)) <==> a == 0xed && b > 0x9f
  {
  }

  lemma Decode4Range(a: Byte, b: Byte, c: Byte, d: Byte)
    requires 0xf0 <= a <= 0xf4 && (a == 0xf0 ==> 0x90 <= b) && (a == 0xf4 ==> b <= 0x8f)
    requires Tail(b) && Tail(c) && Tail(d)
    ensures SequenceLength(a) == 4 && 0xffff < Decode4(a, b, c, d) <= 0x10ffff
  {
  }

  lemma Decode4Bytes(a: Byte, b: Byte, c: Byte, d: Byte, v: CodePoint)
    requires 0xf0 <= a <= 0xf4 && Tail(b) && Tail(c) && Tail(d) && v == Decode4(a, b, c, d)
    ensures Low(0xf0 | (v >> 18)) == a && Low(0x80 | ((v >> 12) & 0x3f)) == b
    ensures Low(0x80 | ((v >> 6) & 0x3f)) == c && Low(0x80 | (v & 0x3f)) == d
  {
  }

  lemma Encode4OfDecoded(a: Byte, b: Byte, c: Byte, d: Byte)
    requires 0xf0 <= a <= 0xf4 && (a == 0xf0 ==> 0x90 <= b) && (a == 0xf4 ==> b <= 0x8f)
    requires Tail(b) && Tail(c) && Tail(d)
    ensures SequenceLength(a) == 4 && 0xffff < Decode4(a, b, c, d) <= 0x10ffff
    ensures EncodeOne(Decode4(a, b, c, d)) == [a, b, c, d]
  {
    Decode4Range(a, b, c, d);
    Decode4Bytes(a, b, c, d, Decode4(a, b, c, d));
  }

  /** The ranges of the bytes of a well-formed character. */
  lemma CharacterBytes(s: seq<Byte>, surrogates: bool)
    requires s != []
    ensures var n := CharLength(s, surrogates);
            && (n == 1 ==> SequenceLength(s[0]) == 1 && Decode1(s[0]) <= 0x7f)
            && (n == 2 ==> 0xc2 <= s[0] <= 0xdf && Tail(s[1]))
            && (n == 3 ==> && 0xe0 <= s[0] <= 0xef && (s[0] == 0xe0 ==> 0xa0 <= s[1])
                           && (s[0] == 0xed && !surrogates ==> s[1] <= 0x9f) && Tail(s[1]) && Tail(s[2]))
            && (n == 4 ==> && 0xf0 <= s[0] <= 0xf4 && (s[0] == 0xf0 ==> 0x90 <= s[1])
                           && (s[0] == 0xf4 ==> s[1] <= 0x8f) && Tail(s[1]) && Tail(s[2]) && Tail(s[3]))
            && n <= 4
  {
  }

  /** A well-formed character is the shortest encoding of the code point that it decodes to. */
  lemma WellFormedCharacter(s: seq<Byte>, surrogates: bool)
    requires s != [] && CharLength(s, surrogates) > 0
    ensures DecodeOne(s).Ok?
    ensures var (v, n) := DecodeOne(s).value;
            && n == CharLength(s, surrogates)
            && v <= 0x10ffff
            && EncodeOne(v) == s[..n]
            && (!surrogates ==> !Surrogate(v))
  {
    var n := CharLength(s, surrogates);
    CharacterBytes(s, surrogates);
    if n == 1 {
      assert EncodeOne(Decode1(s[0])) == [s[0]] == s[..1];
    } else if n == 2 {
      Encode2OfDecoded(s[0], s[1]);
      assert s[..2] == [s[0], s[1]];
    } else if n == 3 {
      Encode3OfDecoded(s[0], s[1], s[2]);
      assert s[..3] == [s[0], s[1], s[2]];
    } else {
      Encode4OfDecoded(s[0], s[1], s[2], s[3]);
      assert s[..4] == [s[0], s[1], s[2], s[3]];
    }
  }

  /** Conversely an encoded character is well-formed. */
  lemma EncodedCharacter(v: CodePoint, rest: seq<Byte>, surrogates: bool)
    requires v <= 0x10ffff
    ensures CharLength(EncodeOne(v) + rest, surrogates) ==
            if Surrogate(v) && !surrogates then 0 else |EncodeOne(v)|
  {
  }

  function Identity(v: CodePoint): CodePoint {
    v
  }

  /** With the identity transform every well-formed text comes back unchanged. */
  lemma {:induction false} WellFormedUnchanged(s: seq<Byte>, surrogates: bool)
    requires WellFormed(s, surrogates)
    ensures Canonical(s, Identity) == Ok(s)
    decreases |s|
  {
    if s != [] {
      var n := CharLength(s, surrogates);
      WellFormedCharacter(s, surrogates);
      WellFormedUnchanged(s[n..], surrogates);
      CanonicalStep(s, Identity, DecodeOne(s).value.0, n);
      assert s[..n] + s[n..] == s;
    }
  }

  /** The texts that come back unchanged are the well-formed ones and those that encode surrogates. */
  lemma {:induction false} UnchangedExactly(s: seq<Byte>)
    ensures Canonical(s, Identity) == Ok(s) <==> WellFormed(s, true)
    decreases |s|
  {
    if WellFormed(s, true) {
      WellFormedUnchanged(s, true);
    } else if Canonical(s, Identity) == Ok(s) {
      var (v, n) := DecodeOne(s).value;
      var rest := Canonical(s[n..], Identity).value;
      assert s == EncodeOne(v) + rest;
      DecodeOneLength(s);
      CanonicalLength(s[n..], Identity);
      assert |EncodeOne(v)| == n;
      assert rest == s[n..];
      UnchangedExactly(s[n..]);
      EncodedCharacter(v, rest, true);
      assert false;
    }
  }

  /** The bytes that spell the surrogate 0xd800 are not well-formed and come back unchanged. */
  lemma SurrogateUnchanged()
    ensures Canonical([0xed, 0xa0, 0x80], Identity) == Ok([0xed, 0xa0, 0x80])
    ensures !WellFormed([0xed, 0xa0, 0x80], false)
  {
    var s: seq<Byte> := [0xed, 0xa0, 0x80];
    assert CharLength(s, true) == 3 && s[3..] == [];
    UnchangedExactly(s);
  }

  /** What is encoded is well-formed exactly when no surrogate is among it. */
  lemma {:induction false} EncodeWellFormed(vs: seq<CodePoint>)
    requires InRange(vs)
    ensures WellFormed(Encode(vs), false) <==> forall i :: 0 <= i < |vs| ==> !Surrogate(vs[i])
  {
    if vs != [] {
      var first, rest := EncodeOne(vs[0]), Encode(vs[1..]);
      EncodedCharacter(vs[0], rest, false);
      EncodeWellFormed(vs[1..]);
      assert first + rest != [] && (first + rest)[|first|..] == rest;
      assert (forall i :: 0 <= i < |vs| ==> !Surrogate(vs[i])) <==>
             !Surrogate(vs[0]) && forall i :: 0 <= i < |vs[1..]| ==> !Surrogate(vs[1..][i]);
    }
  }

  // ---------------------------------------------------------------- sanitising

  /** The transform that `sanitize` passes: control characters become question marks. */
  function Sanitized(v: CodePoint): CodePoint {
    if v == 9 || v == 10 || v == 13 then v
    else if v < 0x20 then 0x3f
    else if v == 0x7f then 0x3f
    else if v >= 0x80 && v <= 0x9f then 0x3f
    else v
  }

  /** Control characters of the C0 and C1 sets and DEL, except tab, line feed and carriage return. */
  predicate Control(v: CodePoint) {
    (v <= 0x1f && v != 9 && v != 10 && v != 13) || 0x7f <= v <= 0x9f
  }

  function Sanitize(s: seq<Byte>): Result<seq<Byte>, Error> {
    Canonical(s, Sanitized)
  }

  lemma SanitizedIsStable()
    ensures NonExpanding(Sanitized)
    ensures forall v :: !Control(Sanitized(v)) && Sanitized(Sanitized(v)) == Sanitized(v)
  {
  }

  /**
   What `sanitize` lets through: the result decodes to no control character, even if the input spelt
   one in an overlong form; it is no longer than the input; and sanitising it again changes nothing.
   */
  lemma SanitizeRemovesControls(s: seq<Byte>)
    requires Sanitize(s).Ok?
    ensures Decode(Sanitize(s).value).Ok?
    ensures forall i :: 0 <= i < |Decode(Sanitize(s).value).value| ==>
              !Control(Decode(Sanitize(s).value).value[i])
    ensures |Sanitize(s).value| <= |s|
    ensures Sanitize(Sanitize(s).value) == Ok(Sanitize(s).value)
  {
    var out := Sanitize(s).value;
    SanitizedIsStable();
    CanonicalIsEncodeMapDecode(s, Sanitized);
    var vs := Map(Sanitized, Decode(s).value);
    DecodeEncode(vs);
    CanonicalLength(s, Sanitized);
    CanonicalIsEncodeMapDecode(out, Sanitized);
    assert Map(Sanitized, vs) == vs;
  }
}

/** The loop of `utf8canonical` over the bytes, with its pointer and its count of bytes left. */
module Utf8Loop {
  import opened Results
  import opened Utf8

  /** The bytes written so far, and what the rest of the text adds to them. */
  ghost predicate Pending(s: seq<Byte>, t: CodePoint -> CodePoint, out: seq<Byte>, rest: seq<Byte>) {
    var more := Canonical(rest, t);
    Canonical(s, t) == if more.Ok? then Ok(out + more.value) else Err(more.error)
  }

  lemma PendingStep(s: seq<Byte>, t: CodePoint -> CodePoint, out: seq<Byte>, rest: seq<Byte>, v: CodePoint, n: nat)
    requires Pending(s, t, out, rest) && rest != [] && DecodeOne(rest) == Ok((v, n)) && t(v) <= 0x10ffff
    ensures Pending(s, t, out + EncodeOne(t(v)), rest[n..])
  {
    CanonicalStep(rest, t, v, n);
    var more := Canonical(rest[n..], t);
    if more.Ok? {
      assert out + (EncodeOne(t(v)) + more.value) == out + EncodeOne(t(v)) + more.value;
    }
  }

  lemma {:induction false} PendingError(s: seq<Byte>, t: CodePoint -> CodePoint, out: seq<Byte>, rest: seq<Byte>)
    requires Pending(s, t, out, rest) && rest != []
    ensures DecodeOne(rest).Err? ==> Canonical(s, t) == Err(InvalidUtf8)
    ensures DecodeOne(rest).Ok? && t(DecodeOne(rest).value.0) > 0x10ffff ==> Canonical(s, t) == Err(InvalidCodePoint)
  {
  }

  /** `rest` is what the pointer stands at; `avail` is the number of bytes that it may still read. */
  method Utf8Canonical(s: seq<Byte>, t: CodePoint -> CodePoint) returns (r: Result<seq<Byte>, Error>)
    ensures r == Canonical(s, t)
  {
    var out: seq<Byte> := [];
    var rest, avail := s, |s|;
    assert Canonical(s, t).Ok? ==> out + Canonical(s, t).value == Canonical(s, t).value;
    while avail > 0
      invariant avail == |rest|
      invariant Pending(s, t, out, rest)
    {
      PendingError(s, t, out, rest);
      avail := avail - 1;
      var v: CodePoint;
      var n: nat;
      if rest[0] & 0x80 == 0 {
        v, n := Decode1(rest[0]), 1;
      } else if rest[0] & 0xe0 == 0xc0 {
        if avail < 1 {
          return Err(InvalidUtf8);
        }
        v, n := Decode2(rest[0], rest[1]), 2;
      } else if rest[0] & 0xf0 == 0xe0 {
        if avail < 2 {
          return Err(InvalidUtf8);
        }
        v, n := Decode3(rest[0], rest[1], rest[2]), 3;
      } else if rest[0] & 0xf8 == 0xf0 {
        if avail < 3 {
          return Err(InvalidUtf8);
        }
        v, n := Decode4(rest[0], rest[1], rest[2], rest[3]), 4;
      } else {
        return Err(InvalidUtf8);
      }
      assert DecodeOne(rest) == Ok((v, n));
      if t(v) > 0x10ffff {
        return Err(InvalidCodePoint);
      }
      PendingStep(s, t, out, rest, v, n);
      out := out + EncodeOne(t(v));
      rest, avail := rest[n..], avail - (n - 1);
    }
    assert out + [] == out;
    return Ok(out);
  }
}
