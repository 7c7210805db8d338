/**
 * Timestamp text as the transcript parser reads and writes it
 * (backend/transcript_parser.py `parse_timestamp`, `format_timestamp`).
 *
 * `parse_timestamp` strips the text, splits it on ':', reads every field as a
 * float after turning ',' into '.', and then combines three fields as
 * H:M:S, two as M:S and any other number of fields as just the first one.
 * A field `float()` rejects makes the whole call fail (`None` here).
 */
module Timestamps {
  import opened Strings
  import opened RealArith

  /** `float()` on an unsigned decimal literal: `123`, `1.5`, `1.` or `.5`. */
  function DecimalBody(b: string): Option<real>
  {
    var j := CharIndex(b, '.', 0);
    if j == |b| then
      if |b| > 0 && AllDigits(b) then Some(DigitsValue(b) as real) else None
    else
      var ip := b[..j];
      var fp := b[j + 1..];
      if AllDigits(ip) && AllDigits(fp) && |ip| + |fp| > 0
      then Some(DigitsValue(ip) as real + FractionValue(fp))
      else None
  }

  /** Python's `float(s)` restricted to plain decimal literals: surrounding whitespace, an optional sign. */
  function FloatLit(s: string): Option<real>
  {
    SignedDecimal(Strip(s))
  }

  /** An optional sign, then a decimal literal. */
  function SignedDecimal(t: string): Option<real>
  {
    if |t| > 0 && t[0] == '-' then
      match DecimalBody(t[1..])
      case Some(v) => Some(-v)
      case None => None
    else if |t| > 0 && t[0] == '+' then DecimalBody(t[1..])
    else DecimalBody(t)
  }

  /** One `:`-separated field read as a float, with ',' taken as the decimal point. */
  function FieldValue(z: string): Option<real>
  {
    FloatLit(ReplaceChar(z, ',', '.'))
  }

  /** Every field is accepted by `float()`; otherwise the list comprehension raises. */
  predicate AllFieldsRead(parts: seq<string>) {
    forall i :: 0 <= i < |parts| ==> FieldValue(parts[i]).Some?
  }

  /** `parse_timestamp`: seconds denoted by `H:M:S`, `M:S` or `S`; `None` where `float()` raises. */
  function ParseTimestamp(s: string): Option<real>
  {
    TimestampOfFields(Split(Strip(s), ":"))
  }

  /** The fields of a timestamp combined as hours, minutes and seconds. */
  function TimestampOfFields(parts: seq<string>): Option<real>
    requires |parts| >= 1
  {
    if !AllFieldsRead(parts) then None
    else if |parts| == 3 then
      Some(FieldValue(parts[0]).value * 3600.0 + FieldValue(parts[1]).value * 60.0 + FieldValue(parts[2]).value)
    else if |parts| == 2 then Some(FieldValue(parts[0]).value * 60.0 + FieldValue(parts[1]).value)
    else Some(FieldValue(parts[0]).value)
  }

  /** Hours, minutes and seconds of a time, as `//` and `%` compute them. */
  datatype Clock = Clock(hours: int, minutes: int, seconds: int)

  function ClockOf(t: real): Clock
  {
    Clock(FloorDiv(t, 3600.0), FloorDiv(Mod(t, 3600.0), 60.0), Trunc(Mod(t, 60.0)))
  }

  /**
   * The time a `timedelta` built from a float holds: the float rounded to a
   * whole microsecond, ties to the even microsecond.
   */
  function RoundMicros(t: real): real
  {
    RoundHalfEven(t * 1000000.0) as real / 1000000.0
  }

  /** The stored time is within half a microsecond of the requested one, and a whole second is kept exactly. */
  lemma RoundMicrosClose(t: real)
    ensures t - 0.0000005 <= RoundMicros(t) <= t + 0.0000005
    ensures t == t.Floor as real ==> RoundMicros(t) == t
  {
    var n := RoundHalfEven(t * 1000000.0);
    assert n as real - 0.5 <= t * 1000000.0 <= n as real + 0.5;
    if t == t.Floor as real {
      assert t * 1000000.0 == (t.Floor * 1000000) as real;
      assert n == t.Floor * 1000000;
    }
  }

  /**
   * `format_timestamp`: `HH:MM:SS`, each field zero-padded to two places,
   * computed from the time the intermediate `timedelta` holds.
   */
  function FormatTimestamp(seconds: real): string
  {
    var c := ClockOf(RoundMicros(seconds));
    ZeroPad(c.hours, 2) + ":" + ZeroPad(c.minutes, 2) + ":" + ZeroPad(c.seconds, 2)
  }

  /**
   * The clock fields of any time: minutes and seconds lie in 0..59 and the
   * three fields add back up to the time truncated to a whole second.
   */
  lemma ClockFields(t: real)
    ensures 0 <= ClockOf(t).minutes < 60 && 0 <= ClockOf(t).seconds < 60
    ensures ClockOf(t).hours * 3600 + ClockOf(t).minutes * 60 + ClockOf(t).seconds == t.Floor
    ensures t >= 0.0 ==> ClockOf(t).hours >= 0
  {
    var F := t.Floor;
    var c := ClockOf(t);
    FloorOfQuotient(t, 3600);
    FloorOfQuotient(t, 60);
    assert c.hours == F / 3600;
    var r := Mod(t, 3600.0);
    assert r / 60.0 == t / 60.0 - (60 * c.hours) as real;
    FloorShift(t / 60.0, 60 * c.hours);
    assert c.minutes == F / 60 - 60 * c.hours;
    assert 0.0 <= r / 60.0 < 60.0;
    var s := Mod(t, 60.0);
    assert s == t - ((F / 60) * 60) as real;
    FloorShift(t, (F / 60) * 60);
    assert c.seconds == F - (F / 60) * 60;
  }

  // ---------------------------------------------------------------------------
  // reading fields back

  lemma DecimalBodyDigits(d: string)
    requires |d| > 0 && AllDigits(d)
    ensures DecimalBody(d) == Some(DigitsValue(d) as real)
  {
    CharIndexAbsent(d, '.', 0);
  }

  lemma DecimalBodyFraction(ip: string, fp: string)
    requires |ip| > 0 && AllDigits(ip) && AllDigits(fp)
    ensures DecimalBody(ip + "." + fp)
         == Some(DigitsValue(ip) as real + FractionValue(fp))
  {
    var b := ip + "." + fp;
    assert b[..|ip|] == ip;
    assert '.' !in ip by {
      assert forall k :: 0 <= k < |ip| ==> IsDigit(ip[k]);
    }
    CharIndexAt(b, '.', |ip|);
    assert b[|ip| + 1..] == fp;
    DecimalBodyAt(b, |ip|, ip, fp);
  }

  /** `DecimalBody` once the first '.' is known. */
  lemma DecimalBodyAt(b: string, j: nat, ip: string, fp: string)
    requires j < |b| && CharIndex(b, '.', 0) == j
    requires b[..j] == ip && b[j + 1..] == fp
    ensures DecimalBody(b) == if AllDigits(ip) && AllDigits(fp) && |ip| + |fp| > 0
      then Some(DigitsValue(ip) as real + FractionValue(fp))
      else None
  {
  }

  lemma FloatLitUnsigned(s: string, v: real)
    requires Trimmed(s) && |s| > 0 && s[0] != '-' && s[0] != '+'
    requires DecimalBody(s) == Some(v)
    ensures FloatLit(s) == Some(v)
  {
    StripTrimmed(s);
    assert SignedDecimal(s) == Some(v);
  }

  lemma FloatLitNegative(s: string, rest: string, v: real, w: real)
    requires s == "-" + rest && Trimmed(s) && w == -v
    requires DecimalBody(rest) == Some(v)
    ensures FloatLit(s) == Some(w)
  {
    assert s[1..] == rest;
    SignedNegative(s, rest, v, w);
    StripTrimmed(s);
  }

  lemma SignedNegative(s: string, rest: string, v: real, w: real)
    requires |s| > 0 && s[0] == '-' && s[1..] == rest && w == -v
    requires DecimalBody(rest) == Some(v)
    ensures SignedDecimal(s) == Some(w)
  {
  }

  /** A digit run holds no ':', ',' or whitespace, and `replace(',', '.')` leaves it alone. */
  lemma DigitsInert(d: string)
    requires AllDigits(d)
    ensures ':' !in d && ',' !in d && Trimmed(d)
    ensures ReplaceChar(d, ',', '.') == d
  {
    assert ',' !in d by {
      assert forall i :: 0 <= i < |d| ==> IsDigit(d[i]);
    }
    ReplaceCharAbsent(d, ',', '.');
  }

  /** `z` can stand as one field of a timestamp and reads back as `v`. */
  predicate FieldReads(z: string, v: real) {
    && |z| > 0 && ':' !in z && Trimmed(z)
    && FieldValue(z) == Some(v)
  }

  /** A `{n:0Wd}` field reads back as `n`. */
  lemma FloatOfZeroPad(n: int, width: nat)
    ensures FieldReads(ZeroPad(n, width), n as real)
  {
    if n >= 0 {
      FloatOfPadDigits(n, width);
    } else {
      FloatOfNegativePad(n, width - 1);
    }
  }

  lemma FloatOfPadDigits(n: nat, width: int)
    ensures FieldReads(PadDigits(n, width), n as real)
  {
    FloatOfDigits(PadDigits(n, width));
  }

  /** A run of decimal digits reads as its value. */
  lemma FloatOfDigits(z: string)
    requires |z| > 0 && AllDigits(z)
    ensures FieldReads(z, DigitsValue(z) as real)
  {
    DigitsInert(z);
    DecimalBodyDigits(z);
    FloatLitUnsigned(z, DigitsValue(z) as real);
  }

  lemma FloatOfNegativePad(n: int, width: int)
    requires n < 0
    ensures FieldReads("-" + PadDigits(-n, width), n as real)
  {
    FloatOfNegativeDigits(PadDigits(-n, width), n as real);
  }

  /** A '-' and a run of digits read as the negated value. */
  lemma FloatOfNegativeDigits(zd: string, w: real)
    requires |zd| > 0 && AllDigits(zd) && w == -(DigitsValue(zd) as real)
    ensures FieldReads("-" + zd, w)
  {
    var v := DigitsValue(zd) as real;
    var z := "-" + zd;
    DigitsInert(zd);
    DecimalBodyDigits(zd);
    FloatLitNegative(z, zd, v, w);
    assert ',' !in z && ':' !in z;
    PlainFieldReads(z, w);
  }

  /** A field without ',' reads exactly as `float()` reads it. */
  lemma PlainFieldReads(z: string, v: real)
    requires |z| > 0 && ':' !in z && ',' !in z && Trimmed(z) && FloatLit(z) == Some(v)
    ensures FieldReads(z, v)
  {
    ReplaceCharAbsent(z, ',', '.');
  }

  /** Digits, a ',' and more digits read as a decimal fraction (`SS,mmm` in SRT). */
  lemma FloatOfFraction(a: string, b: string, x: real)
    requires |a| > 0 && AllDigits(a) && AllDigits(b)
    requires x == DigitsValue(a) as real + FractionValue(b)
    ensures FieldReads(a + "," + b, x)
  {
    DigitsInert(a);
    DigitsInert(b);
    var g := a + "." + b;
    ReplaceCharConcat(a, ",", b);
    DecimalBodyFraction(a, b);
    FloatLitUnsigned(g, x);
  }

  lemma ReplaceCharConcat(a: string, m: string, b: string)
    requires ',' !in a && ',' !in b && m == ","
    ensures ReplaceChar(a + m + b, ',', '.') == a + "." + b
  {
    var f := a + m + b;
    var r := ReplaceChar(f, ',', '.');
    ReplaceCharIndex(f, ',', '.');
    assert forall i :: 0 <= i < |f| ==> r[i] == (a + "." + b)[i];
  }

  lemma SplitThree(a: string, b: string, c: string, s: string)
    requires ':' !in a && ':' !in b && ':' !in c && s == a + ":" + b + ":" + c
    ensures Split(s, ":") == [a, b, c]
  {
    SepOnlyAtEndChar(a, ':');
    SepOnlyAtEndChar(b, ':');
    SepOnlyAtEndChar(c, ':');
    var parts := [a, b, c];
    assert Join(parts[2..], ":") == c;
    assert Join(parts[1..], ":") == b + ":" + c;
    assert Join(parts, ":") == s;
    SplitJoin(parts, ":");
  }

  lemma SplitTwo(a: string, b: string, s: string)
    requires ':' !in a && ':' !in b && s == a + ":" + b
    ensures Split(s, ":") == [a, b]
  {
    SepOnlyAtEndChar(a, ':');
    SepOnlyAtEndChar(b, ':');
    var parts := [a, b];
    assert Join(parts[1..], ":") == b;
    assert Join(parts, ":") == s;
    SplitJoin(parts, ":");
  }

  lemma ThreeFieldsValue(p: seq<string>, x: real, y: real, z: real)
    requires |p| == 3
    requires FieldValue(p[0]) == Some(x) && FieldValue(p[1]) == Some(y) && FieldValue(p[2]) == Some(z)
    ensures TimestampOfFields(p).Some? && TimestampOfFields(p).value == x * 3600.0 + y * 60.0 + z
  {
    forall i | 0 <= i < |p|
      ensures FieldValue(p[i]).Some?
    {
      assert i == 0 || i == 1 || i == 2;
    }
  }

  lemma TwoFieldsValue(p: seq<string>, x: real, y: real)
    requires |p| == 2
    requires FieldValue(p[0]) == Some(x) && FieldValue(p[1]) == Some(y)
    ensures TimestampOfFields(p).Some? && TimestampOfFields(p).value == x * 60.0 + y
  {
    forall i | 0 <= i < |p|
      ensures FieldValue(p[i]).Some?
    {
      assert i == 0 || i == 1;
    }
  }

  /** Three fields joined with ':' parse as hours, minutes and seconds. */
  lemma ParseThreeFields(a: string, b: string, c: string, x: real, y: real, z: real)
    requires FieldReads(a, x) && FieldReads(b, y) && FieldReads(c, z)
    ensures ParseTimestamp(a + ":" + b + ":" + c).Some?
    ensures ParseTimestamp(a + ":" + b + ":" + c).value == x * 3600.0 + y * 60.0 + z
  {
    var s := a + ":" + b + ":" + c;
    assert Trimmed(s);
    StripTrimmed(s);
    SplitThree(a, b, c, s);
    var p := [a, b, c];
    ThreeFieldsValue(p, x, y, z);
  }

  /** A single field, with no ':' at all, parses as plain seconds. */
  lemma ParseOneField(a: string, x: real)
    requires FieldReads(a, x)
    ensures ParseTimestamp(a) == Some(x)
  {
    StripTrimmed(a);
    SepOnlyAtEndChar(a, ':');
    SplitNoSep(a, ":");
  }

  /** Two fields joined with ':' parse as minutes and seconds. */
  lemma ParseTwoFields(a: string, b: string, x: real, y: real)
    requires FieldReads(a, x) && FieldReads(b, y)
    ensures ParseTimestamp(a + ":" + b).Some?
    ensures ParseTimestamp(a + ":" + b).value == x * 60.0 + y
  {
    var s := a + ":" + b;
    assert Trimmed(s);
    StripTrimmed(s);
    SplitTwo(a, b, s);
    var p := [a, b];
    TwoFieldsValue(p, x, y);
  }

  /**
   * `parse_timestamp` inverts `format_timestamp` up to the dropped fraction of
   * a second: for every time, negative ones included, reading the formatted
   * text back gives the microsecond-rounded time truncated to a whole second.
   */
  lemma FormatThenParse(t: real)
    ensures ParseTimestamp(FormatTimestamp(t)).Some?
    ensures ParseTimestamp(FormatTimestamp(t)).value == RoundMicros(t).Floor as real
  {
    var u := RoundMicros(t);
    var c := ClockOf(u);
    var h, m, sec := ZeroPad(c.hours, 2), ZeroPad(c.minutes, 2), ZeroPad(c.seconds, 2);
    assert FormatTimestamp(t) == h + ":" + m + ":" + sec;
    ClockFields(u);
    FloatOfZeroPad(c.hours, 2);
    FloatOfZeroPad(c.minutes, 2);
    FloatOfZeroPad(c.seconds, 2);
    ParseThreeFields(h, m, sec, c.hours as real, c.minutes as real, c.seconds as real);
    assert (c.hours as real) * 3600.0 + (c.minutes as real) * 60.0 + c.seconds as real
        == (c.hours * 3600 + c.minutes * 60 + c.seconds) as real;
  }

  /**
   * The rounding reaches the text: a time a tenth of a microsecond short of a
   * minute is written as the minute, and one a tenth of a microsecond below
   * zero as zero.
   */
  lemma FormatRoundsFirst()
    ensures ParseTimestamp(FormatTimestamp(59.9999999)) == Some(60.0)
    ensures ParseTimestamp(FormatTimestamp(-0.0000001)) == Some(0.0)
  {
    RoundedAt(59.9999999, 59999999, 60.0);
    FormatThenParse(59.9999999);
    RoundedAt(-0.0000001, -1, 0.0);
    FormatThenParse(-0.0000001);
  }

  /** A time whose microsecond count lies more than half-way past `f` rounds up to `u`. */
  lemma RoundedAt(t: real, f: int, u: real)
    requires f as real <= t * 1000000.0 < f as real + 1.0
    requires t * 1000000.0 - f as real > 0.5
    requires u * 1000000.0 == (f + 1) as real
    ensures RoundMicros(t) == u
  {
    var x := t * 1000000.0;
    assert x.Floor == f;
    assert RoundHalfEven(x) == f + 1;
    assert (f + 1) as real / 1000000.0 == u;
  }

  /** The round trip on whole seconds is exact. */
  lemma FormatThenParseWhole(n: int)
    ensures ParseTimestamp(FormatTimestamp(n as real)) == Some(n as real)
  {
    FormatThenParse(n as real);
    RoundMicrosClose(n as real);
  }
}
