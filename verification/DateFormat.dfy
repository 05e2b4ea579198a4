/** What `DateTime::parseFormat` means: the text it would write into an unbounded buffer. */
module DateText {

  // ---------------------------------------------------------------- numbers

  predicate IsDigit(c: char) {
    '0' <= c <= '9'
  }

  function Digit(d: nat): (c: char)
    requires d < 10
    ensures IsDigit(c) && c as int - '0' as int == d
  {
    '0' + d as char
  }

  function Pow10(k: nat): (p: nat)
    ensures p >= 1
  {
    if k == 0 then 1 else 10 * Pow10(k - 1)
  }

  /** The number that a string of digits stands for. */
  function Value(s: string): int
    requires forall i :: 0 <= i < |s| ==> IsDigit(s[i])
  {
    if s == "" then 0 else 10 * Value(s[..|s| - 1]) + (s[|s| - 1] as int - '0' as int)
  }

  /** The lowest `width` decimal digits of `n`, with leading zeros. */
  function LowDigits(n: nat, width: nat): string {
    if width == 0 then "" else LowDigits(n / 10, width - 1) + [Digit(n % 10)]
  }

  /** At most eight digits fit; a zero is written even when no width is left for it. */
  function FieldWidth(n: nat, len: int): nat {
    var w := if len < 0 then 0 else if len > 8 then 8 else len;
    if n == 0 && w == 0 then 1 else w
  }

  function Field(n: nat, len: int): string {
    LowDigits(n, FieldWidth(n, len))
  }

  lemma {:induction false} ModByParts(n: nat, k: nat)
    ensures n % (10 * Pow10(k)) == 10 * ((n / 10) % Pow10(k)) + n % 10
  {
    var m, p := n / 10, Pow10(k);
    var q, r := m / p, m % p;
    assert n == 10 * m + n % 10;
    assert m == p * q + r;
    var low := 10 * r + n % 10;
    assert n == (10 * p) * q + low by {
      assert 10 * (p * q) == (10 * p) * q;
    }
    assert 0 <= low < 10 * p;
    RemainderIs(n, 10 * p, q, low);
  }

  lemma RemainderIs(n: int, d: nat, q: int, r: nat)
    requires d > 0 && n == d * q + r && r < d
    ensures n % d == r
  {
    var x := n / d - q;
    assert n == d * (n / d) + n % d;
    assert d * x == d * (n / d) - d * q == r - n % d;
    if x >= 1 {
      TimesAtLeast(d, x);
      assert false;
    } else if x <= -1 {
      TimesAtLeast(d, -x);
      assert false;
    }
  }

  lemma TimesAtLeast(d: nat, x: int)
    requires x >= 1
    ensures d * x >= d
  {
    assert d * x == d * (x - 1) + d;
  }

  /** The field is made of `width` digits and shows `n` modulo the power of ten. */
  lemma {:induction false} LowDigitsMeaning(n: nat, width: nat)
    ensures |LowDigits(n, width)| == width
    ensures forall i :: 0 <= i < width ==> IsDigit(LowDigits(n, width)[i])
    ensures Value(LowDigits(n, width)) == n % Pow10(width)
  {
    if width > 0 {
      LowDigitsMeaning(n / 10, width - 1);
      var front := LowDigits(n / 10, width - 1);
      assert LowDigits(n, width)[..width - 1] == front;
      ModByParts(n, width - 1);
    }
  }

  /** A padded number field of positive width: min(len, 8) digits, value n mod 10^min(len, 8). */
  lemma FieldMeaning(n: nat, len: int)
    requires len >= 1
    ensures var w := if len > 8 then 8 else len;
            && |Field(n, len)| == w
            && (forall i :: 0 <= i < w ==> IsDigit(Field(n, len)[i]))
            && Value(Field(n, len)) == n % Pow10(w)
  {
    LowDigitsMeaning(n, FieldWidth(n, len));
  }

  /** Digits of the same number and length are the same, so the meaning determines the field. */
  lemma {:induction false} DigitsUnique(a: string, b: string)
    requires |a| == |b|
    requires forall i :: 0 <= i < |a| ==> IsDigit(a[i]) && IsDigit(b[i])
    requires Value(a) == Value(b)
    ensures a == b
  {
    if a != "" {
      var n := |a| - 1;
      var x, y := a[n] as int - '0' as int, b[n] as int - '0' as int;
      assert Value(a[..n]) == Value(b[..n]) && x == y;
      DigitsUnique(a[..n], b[..n]);
      assert a == a[..n] + [a[n]] && b == b[..n] + [b[n]];
    }
  }

  // ---------------------------------------------------------------- the calendar

  const DAYS: seq<string> := ["Sunday", "Monday", "Tuesday", "Wednesday", "Thursday", "Friday", "Saturday"]
  const DAYS_ABBREV: seq<string> := ["Sun", "Mon", "Tue", "Wed", "Thu", "Fri", "Sat"]
  // the fourth name lacks its last letter in the program's table
  const MONTHS: seq<string> := ["January", "February", "March", "Apri", "May", "June", "July", "August",
                                "September", "October", "November", "December"]
  const MONTHS_ABBREV: seq<string> := ["Jan", "Feb", "Mar", "Apr", "May", "Jun", "Jul", "Aug", "Sep", "Oct", "Nov", "Dec"]
  const YEAR_BASE := 1900

  /** `struct tm`; the indices into the tables of names are in range. */
  datatype RawTime = Time(sec: int, min: int, hour: int, mday: int, mon: int, year: int, wday: int)

  type Time = t: RawTime | 0 <= t.mon < 12 && 0 <= t.wday < 7 witness Time(0, 0, 0, 0, 0, 0, 0)

  /** Conversion of an `int` to `std::size_t`. */
  function ToSize(x: int): nat {
    x % 0x1_0000_0000_0000_0000
  }

  /** C's remainder, which takes the sign of its left operand. */
  function Remainder(x: int, d: nat): int
    requires d > 0
  {
    if x >= 0 then x % d else -((-x) % d)
  }

  /** What a specifier stands for; an unknown one stands for nothing. */
  function Specified(c: char, t: Time, msec: nat, width: int): string {
    match c
    case 'd' => Field(ToSize(t.mday), 2)
    case 'a' => DAYS_ABBREV[t.wday]
    case 'A' => DAYS[t.wday]
    case 'M' => Field(ToSize(t.mon + 1), 2)
    case 'b' => MONTHS_ABBREV[t.mon]
    case 'B' => MONTHS[t.mon]
    case 'y' => Field(ToSize(t.year + YEAR_BASE), 2)
    case 'Y' => Field(ToSize(t.year + YEAR_BASE), 4)
    case 'h' => Field(ToSize(Remainder(t.hour, 12)), 2)
    case 'H' => Field(ToSize(t.hour), 2)
    case 'm' => Field(ToSize(t.min), 2)
    case 's' => Field(ToSize(t.sec), 2)
    case 'z' => Field(msec, width)
    case 'g' => Field(msec, width)
    case 'F' => if t.hour >= 12 then "PM" else "AM"
    case _ => ""
  }

  /** The text of a whole format: `%%` and a final `%` stand for themselves. */
  function Ideal(format: string, t: Time, msec: nat, width: int): string {
    if format == "" then ""
    else if format[0] != '%' then [format[0]] + Ideal(format[1..], t, msec, width)
    else if |format| == 1 then "%"
    else if format[1] == '%' then "%" + Ideal(format[2..], t, msec, width)
    else Specified(format[1], t, msec, width) + Ideal(format[2..], t, msec, width)
  }
}

/** The bounded writer: it fills a buffer of given size and never writes outside of it. */
module DateBuffer {
  import opened Glob
  import opened DateText

  function Min(a: int, b: int): int {
    if a < b then a else b
  }

  /**
   The buffer `y` is `x` with `str`, or as much of it as fits below `lim`, put at `b`; `e` is the new
   end.  Behind the end at most one terminator was written, and nothing at `lim` or beyond.
   */
  ghost predicate Added(x: string, y: string, b: nat, lim: nat, str: string, e: nat) {
    && b <= lim <= |x| == |y|
    && e == Min(b + |str|, lim) && b <= e
    && (forall k :: 0 <= k < b ==> y[k] == x[k])
    && (forall k :: b <= k < e ==> y[k] == str[k - b])
    && (forall k :: e < k < |x| ==> y[k] == x[k])
    && (e < |x| ==> y[e] == x[e] || (e < lim && y[e] == '\0'))
  }

  /** Copies a C string, or as much of it as fits; the terminator is written when there is room. */
  method AddToBuff(str: string, a: array<char>, b: nat, lim: nat) returns (e: nat)
    requires CString(str) && b <= lim <= a.Length
    modifies a
    ensures Added(old(a[..]), a[..], b, lim, str, e)
  {
    e := b;
    while e < lim
      invariant b <= e <= lim && e - b <= |str|
      invariant forall k :: 0 <= k < b ==> a[k] == old(a[k])
      invariant forall k :: b <= k < e ==> a[k] == str[k - b]
      invariant forall k :: e <= k < a.Length ==> a[k] == old(a[k])
    {
      a[e] := At(str, e - b);
      if a[e] == '\0' {
        break;
      }
      e := e + 1;
    }
  }

  /** Of the `w` lowest digits of `n`, `text` holds the last ones and `m` yields the others. */
  ghost predicate Built(n: nat, w: nat, m: nat, text: string) {
    |text| <= w && LowDigits(n, w) == LowDigits(m, w - |text|) + text
  }

  /** Puts one more digit in front of those that stand in `local[p..8]`. */
  method PutDigit(local: array<char>, p: nat, ghost n: nat, ghost w: nat, m: nat)
    requires local.Length == 10 && 0 < p <= 8 && 8 - p < w && Built(n, w, m, local[p..8])
    modifies local
    ensures Built(n, w, m / 10, local[p - 1..8])
  {
    ghost var text := local[p..8];
    local[p - 1] := Digit(m % 10);
    assert local[p - 1..8] == [Digit(m % 10)] + text;
    assert LowDigits(m, w - |text|) == LowDigits(m / 10, w - |text| - 1) + [Digit(m % 10)];
  }

  /** The digits of a number, built from the right in a local buffer of ten characters. */
  method NumberText(n: nat, len: int) returns (s: string)
    ensures s == Field(n, len)
  {
    var local := new char[10](_ => '\0');
    var p: nat, m: nat, left: int := 8, n, len;
    ghost var w := FieldWidth(n, len);
    assert local[8..8] == "" && LowDigits(n, w) + "" == LowDigits(n, w);
    if m > 0 {
      while m > 0 && p > 0 && left > 0
        invariant 0 <= p <= 8 && left == len - (8 - p) && 8 - p <= w
        invariant Built(n, w, m, local[p..8])
      {
        PutDigit(local, p, n, w, m);
        p, m, left := p - 1, m / 10, left - 1;
      }
    } else {
      PutDigit(local, p, n, w, m);
      p, left := p - 1, left - 1;
    }
    while p > 0 && left > 0
      invariant 0 <= p <= 8 && left == len - (8 - p) && 8 - p <= w
      invariant n == 0 ==> p <= 7
      invariant p > 0 && left > 0 ==> m == 0
      invariant Built(n, w, m, local[p..8])
    {
      PutDigit(local, p, n, w, m);
      p, left := p - 1, left - 1;
    }
    s := local[p..8];
    assert LowDigits(m, 0) + s == s;
  }

  method ConvertAndAddToBuff(n: nat, len: int, a: array<char>, b: nat, lim: nat) returns (e: nat)
    requires b <= lim <= a.Length
    modifies a
    ensures Added(old(a[..]), a[..], b, lim, Field(n, len), e)
  {
    var s := NumberText(n, len);
    LowDigitsMeaning(n, FieldWidth(n, len));
    e := AddToBuff(s, a, b, lim);
  }

  /** Text written behind `done` in a buffer that holds as much of `done` as fits. */
  ghost predicate Holds(x: string, y: string, lim: nat, done: string, b: nat) {
    && lim <= |x| == |y|
    && b == Min(|done|, lim)
    && (forall k :: 0 <= k < b ==> y[k] == done[k])
    && (forall k :: b < k < |x| ==> y[k] == x[k])
    && (b < |x| ==> y[b] == x[b] || (b < lim && y[b] == '\0'))
  }

  lemma HoldsMore(x: string, y: string, z: string, lim: nat, done: string, b: nat, str: string, e: nat)
    requires Holds(x, y, lim, done, b) && Added(y, z, b, lim, str, e)
    ensures Holds(x, z, lim, done + str, e)
  {
  }

  lemma DayIsCString(i: nat)
    requires i < 7
    ensures CString(DAYS[i]) && CString(DAYS_ABBREV[i])
  {
  }

  lemma MonthIsCString(i: nat)
    requires i < 12
    ensures CString(MONTHS[i]) && CString(MONTHS_ABBREV[i])
  {
  }

  /** The `switch` over the specifier character. */
  method AddSpecified(c: char, t: Time, msec: nat, width: int, a: array<char>, b: nat, lim: nat) returns (e: nat)
    requires b <= lim <= a.Length && c != '%'
    modifies a
    ensures Added(old(a[..]), a[..], b, lim, Specified(c, t, msec, width), e)
  {
    DayIsCString(t.wday);
    MonthIsCString(t.mon);
    match c
    case 'd' => e := ConvertAndAddToBuff(ToSize(t.mday), 2, a, b, lim);
    case 'a' => e := AddToBuff(DAYS_ABBREV[t.wday], a, b, lim);
    case 'A' => e := AddToBuff(DAYS[t.wday], a, b, lim);
    case 'M' => e := ConvertAndAddToBuff(ToSize(t.mon + 1), 2, a, b, lim);
    case 'b' => e := AddToBuff(MONTHS_ABBREV[t.mon], a, b, lim);
    case 'B' => e := AddToBuff(MONTHS[t.mon], a, b, lim);
    case 'y' => e := ConvertAndAddToBuff(ToSize(t.year + YEAR_BASE), 2, a, b, lim);
    case 'Y' => e := ConvertAndAddToBuff(ToSize(t.year + YEAR_BASE), 4, a, b, lim);
    case 'h' => e := ConvertAndAddToBuff(ToSize(Remainder(t.hour, 12)), 2, a, b, lim);
    case 'H' => e := ConvertAndAddToBuff(ToSize(t.hour), 2, a, b, lim);
    case 'm' => e := ConvertAndAddToBuff(ToSize(t.min), 2, a, b, lim);
    case 's' => e := ConvertAndAddToBuff(ToSize(t.sec), 2, a, b, lim);
    case 'z' => e := ConvertAndAddToBuff(msec, width, a, b, lim);
    case 'g' => e := ConvertAndAddToBuff(msec, width, a, b, lim);
    case 'F' => e := AddToBuff(if t.hour >= 12 then "PM" else "AM", a, b, lim);
    case _ => e := b;
  }

  /**
   Writes the longest prefix of the ideal text that fits into the first `lim` places of the buffer,
   and returns its end; the buffer beyond stays as it was, save for one terminator at the end.
   */
  method ParseFormat(a: array<char>, lim: nat, format: string, t: Time, msec: nat, width: int) returns (b: nat)
    requires lim <= a.Length && CString(format)
    modifies a
    ensures Holds(old(a[..]), a[..], lim, Ideal(format, t, msec, width), b)
  {
    b := 0;
    var rest := format;
    ghost var done := "";
    while rest != ""
      invariant done + Ideal(rest, t, msec, width) == Ideal(format, t, msec, width)
      invariant Holds(old(a[..]), a[..], lim, done, b)
      decreases |rest|
    {
      var c := rest[0];
      ghost var before := a[..];
      if c == '%' && |rest| >= 2 && rest[1] != '%' {
        b := AddSpecified(rest[1], t, msec, width, a, b, lim);
        HoldsMore(old(a[..]), before, a[..], lim, done, if |done| < lim then |done| else lim,
                  Specified(rest[1], t, msec, width), b);
        IdealStep(done, Specified(rest[1], t, msec, width), rest, t, msec, width, 2);
        done := done + Specified(rest[1], t, msec, width);
        rest := rest[2..];
      } else {
        // an escaped sign, a final sign or any other character stands for itself
        var n := if c == '%' && |rest| >= 2 then 2 else 1;
        IdealStep(done, [c], rest, t, msec, width, n);
        if b == lim {
          assert Holds(old(a[..]), a[..], lim, Ideal(format, t, msec, width), b);
          return;
        }
        a[b] := c;
        HoldsMore(old(a[..]), before, a[..], lim, done, b, [c], b + 1);
        done := done + [c];
        b := b + 1;
        rest := rest[n..];
      }
    }
    assert done + "" == done;
  }

  /** The part of a format that one round of the loop takes, and what it contributes. */
  lemma {:induction false} IdealStep(done: string, str: string, rest: string, t: Time, msec: nat, width: int, n: nat)
    requires rest != "" && n <= |rest|
    requires
      if rest[0] == '%' && |rest| >= 2 && rest[1] != '%'
      then str == Specified(rest[1], t, msec, width) && n == 2
      else str == [rest[0]] && n == (if rest[0] == '%' && |rest| >= 2 then 2 else 1)
    ensures done + Ideal(rest, t, msec, width) == (done + str) + Ideal(rest[n..], t, msec, width)
  {
    assert Ideal(rest, t, msec, width) == str + Ideal(rest[n..], t, msec, width);
  }
}
