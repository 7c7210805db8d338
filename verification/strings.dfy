/**
 * Python string primitives the backend leans on, written out over `seq<char>`:
 * whitespace as `str.isspace()` and the regex class `\s` see it, `strip`,
 * `split` on a fixed separator, `join`, decimal digits and the `{n:0Wd}`
 * zero-padded integer format.
 */
module Strings {

  datatype Option<+T> = None | Some(value: T)

  /** Python's `str.isspace()` (and the `\s` class of `re` on `str` patterns). */
  predicate IsSpace(c: char) {
    var n := c as int;
    (9 <= n <= 13) || (28 <= n <= 32) || n == 0x85 || n == 0xA0 || n == 0x1680
    || (0x2000 <= n <= 0x200A) || n == 0x2028 || n == 0x2029 || n == 0x202F
    || n == 0x205F || n == 0x3000
  }

  predicate IsDigit(c: char) {
    '0' <= c <= '9'
  }

  predicate AllDigits(s: string) {
    forall i :: 0 <= i < |s| ==> IsDigit(s[i])
  }

  predicate AllSpace(s: string) {
    forall i :: 0 <= i < |s| ==> IsSpace(s[i])
  }

  /** The first index at or after `i` that does not hold whitespace, or `|s|`. */
  function SkipSpaces(s: string, i: nat): (r: nat)
    requires i <= |s|
    ensures i <= r <= |s|
    decreases |s| - i
  {
    if i < |s| && IsSpace(s[i]) then SkipSpaces(s, i + 1) else i
  }

  /** The end of `s[lo..hi]` once its trailing whitespace is dropped. */
  function TrimEnd(s: string, lo: nat, hi: nat): (r: nat)
    requires lo <= hi <= |s|
    ensures lo <= r <= hi
    decreases hi
  {
    if hi > lo && IsSpace(s[hi - 1]) then TrimEnd(s, lo, hi - 1) else hi
  }

  /** `s.strip()`: drop leading and trailing whitespace. */
  function Strip(s: string): string {
    var a := SkipSpaces(s, 0);
    s[a..TrimEnd(s, a, |s|)]
  }

  lemma SkipSpacesFacts(s: string, i: nat)
    requires i <= |s|
    ensures forall k :: i <= k < SkipSpaces(s, i) ==> IsSpace(s[k])
    ensures SkipSpaces(s, i) < |s| ==> !IsSpace(s[SkipSpaces(s, i)])
    decreases |s| - i
  {
    if i < |s| && IsSpace(s[i]) {
      SkipSpacesFacts(s, i + 1);
    }
  }

  lemma TrimEndFacts(s: string, lo: nat, hi: nat)
    requires lo <= hi <= |s|
    ensures forall k :: TrimEnd(s, lo, hi) <= k < hi ==> IsSpace(s[k])
    ensures TrimEnd(s, lo, hi) > lo ==> !IsSpace(s[TrimEnd(s, lo, hi) - 1])
    decreases hi
  {
    if hi > lo && IsSpace(s[hi - 1]) {
      TrimEndFacts(s, lo, hi - 1);
    }
  }

  /** A string with no whitespace at either end, which `strip` leaves alone. */
  predicate Trimmed(s: string) {
    |s| > 0 ==> !IsSpace(s[0]) && !IsSpace(s[|s| - 1])
  }

  /** `strip` returns a trimmed string and leaves a trimmed one alone. */
  lemma StripTrimmed(s: string)
    ensures Trimmed(Strip(s))
    ensures Trimmed(s) ==> Strip(s) == s
  {
    var a := SkipSpaces(s, 0);
    var b := TrimEnd(s, a, |s|);
    SkipSpacesFacts(s, 0);
    TrimEndFacts(s, a, |s|);
    if a < b {
      assert Strip(s)[0] == s[a];
      assert Strip(s)[|Strip(s)| - 1] == s[b - 1];
    }
    if Trimmed(s) && |s| > 0 {
      assert a == 0;
      assert b == |s|;
    }
  }

  /** `strip` removes exactly the whitespace padding around a trimmed, non-empty core. */
  lemma StripPadded(u: string, s: string, w: string)
    requires AllSpace(u) && AllSpace(w) && Trimmed(s) && |s| > 0
    ensures Strip(u + s + w) == s
  {
    var t := u + s + w;
    SkipSpacesAt(t, |u|);
    TrimEndAt(t, |u|, |u| + |s|);
    assert t[|u|..|u| + |s|] == s;
  }

  lemma SkipSpacesAt(t: string, j: nat)
    requires j < |t| && !IsSpace(t[j]) && forall k :: 0 <= k < j ==> IsSpace(t[k])
    ensures SkipSpaces(t, 0) == j
  {
    SkipFrom(t, 0, j);
  }

  lemma SkipFrom(t: string, i: nat, j: nat)
    requires i <= j < |t| && !IsSpace(t[j]) && forall k :: i <= k < j ==> IsSpace(t[k])
    ensures SkipSpaces(t, i) == j
    decreases j - i
  {
    if i < j {
      SkipFrom(t, i + 1, j);
    }
  }

  lemma TrimEndAt(t: string, lo: nat, e: nat)
    requires lo < e <= |t| && !IsSpace(t[e - 1]) && forall k :: e <= k < |t| ==> IsSpace(t[k])
    ensures TrimEnd(t, lo, |t|) == e
  {
    TrimFrom(t, lo, e, |t|);
  }

  lemma TrimFrom(t: string, lo: nat, e: nat, hi: nat)
    requires lo < e <= hi <= |t| && !IsSpace(t[e - 1]) && forall k :: e <= k < hi ==> IsSpace(t[k])
    ensures TrimEnd(t, lo, hi) == e
    decreases hi
  {
    if e < hi {
      TrimFrom(t, lo, e, hi - 1);
    }
  }

  /** Stripping a string with trailing whitespace appended gives back the string. */
  lemma StripAppendSpace(s: string, w: string)
    requires Trimmed(s) && |s| > 0 && AllSpace(w)
    ensures Strip(s + w) == s
  {
    StripPadded("", s, w);
    assert "" + s + w == s + w;
  }

  // ---------------------------------------------------------------------------
  // split / join on a fixed separator

  /** `s.startswith(p)` */
  predicate StartsWith(s: string, p: string) {
    |p| <= |s| && s[..|p|] == p
  }

  /** `sep` occurs in `s` starting at position `j`. */
  predicate OccursAt(s: string, sep: string, j: int) {
    0 <= j && j + |sep| <= |s| && s[j..j + |sep|] == sep
  }

  /** The leftmost occurrence of `sep` in `s` at or after `i` (`str.find`). */
  function FindFrom(s: string, sep: string, i: nat): (r: Option<nat>)
    ensures r.Some? ==> i <= r.value && OccursAt(s, sep, r.value)
    ensures r.Some? ==> forall k :: i <= k < r.value ==> !OccursAt(s, sep, k)
    ensures r.None? ==> forall k :: i <= k ==> !OccursAt(s, sep, k)
    decreases |s| - i
  {
    if i + |sep| > |s| then None
    else if s[i..i + |sep|] == sep then Some(i)
    else FindFrom(s, sep, i + 1)
  }

  /** The first index at or after `i` holding `c`, or `|s|` when there is none. */
  function CharIndex(s: string, c: char, i: nat): (r: nat)
    requires i <= |s|
    ensures i <= r <= |s|
    ensures r < |s| ==> s[r] == c
    ensures forall k :: i <= k < r ==> s[k] != c
    decreases |s| - i
  {
    if i == |s| || s[i] == c then i else CharIndex(s, c, i + 1)
  }

  lemma CharIndexAbsent(s: string, c: char, i: nat)
    requires i <= |s| && forall k :: i <= k < |s| ==> s[k] != c
    ensures CharIndex(s, c, i) == |s|
  {
  }

  /** The first `c` at or after `i` is at `j` when nothing between holds `c`. */
  lemma CharIndexFrom(s: string, c: char, i: nat, j: nat)
    requires i <= j < |s| && s[j] == c && forall k :: i <= k < j ==> s[k] != c
    ensures CharIndex(s, c, i) == j
    decreases j - i
  {
    if i < j {
      CharIndexFrom(s, c, i + 1, j);
    }
  }

  /** The first `c` in `s` is at `j` when `s[..j]` avoids `c`. */
  lemma CharIndexAt(s: string, c: char, j: nat)
    requires j < |s| && s[j] == c && c !in s[..j]
    ensures CharIndex(s, c, 0) == j
  {
    assert forall k :: 0 <= k < j ==> s[k] == s[..j][k];
  }

  /** `s.split(sep)` for a non-empty separator: cut at leftmost non-overlapping occurrences. */
  function Split(s: string, sep: string): (parts: seq<string>)
    requires |sep| > 0
    ensures |parts| >= 1
    decreases |s|
  {
    match FindFrom(s, sep, 0)
    case None => [s]
    case Some(j) => [s[..j]] + Split(s[j + |sep|..], sep)
  }

  /** `sep.join(parts)` */
  function Join(parts: seq<string>, sep: string): string
  {
    if |parts| == 0 then ""
    else if |parts| == 1 then parts[0]
    else parts[0] + sep + Join(parts[1..], sep)
  }

  /** The concatenation of all strings, in order. */
  function Concat(parts: seq<string>): string
  {
    if |parts| == 0 then "" else parts[0] + Concat(parts[1..])
  }

  /** The first occurrence of `sep` in `p + sep` is the appended one. */
  predicate SepOnlyAtEnd(p: string, sep: string) {
    forall k :: 0 <= k < |p| ==> !OccursAt(p + sep, sep, k)
  }

  lemma SplitLeadingPart(p: string, sep: string, rest: string)
    requires |sep| > 0 && SepOnlyAtEnd(p, sep)
    ensures Split(p + sep + rest, sep) == [p] + Split(rest, sep)
  {
    var s := p + sep + rest;
    assert OccursAt(s, sep, |p|) by {
      assert s[|p|..|p| + |sep|] == sep;
    }
    forall k | 0 <= k < |p|
      ensures !OccursAt(s, sep, k)
    {
      assert s[k..k + |sep|] == (p + sep)[k..k + |sep|];
      assert !OccursAt(p + sep, sep, k);
    }
    var f := FindFrom(s, sep, 0);
    assert f == Some(|p|);
    assert s[..|p|] == p;
    assert s[|p| + |sep|..] == rest;
  }

  lemma SplitNoSep(p: string, sep: string)
    requires |sep| > 0 && SepOnlyAtEnd(p, sep)
    ensures Split(p, sep) == [p]
  {
    forall k | 0 <= k
      ensures !OccursAt(p, sep, k)
    {
      if k + |sep| <= |p| {
        assert p[k..k + |sep|] == (p + sep)[k..k + |sep|];
        assert !OccursAt(p + sep, sep, k);
      }
    }
    assert FindFrom(p, sep, 0).None?;
  }

  /** Splitting a join gives the parts back when no part lets the separator start early. */
  lemma {:induction false} SplitJoin(parts: seq<string>, sep: string)
    requires |sep| > 0 && |parts| >= 1
    requires forall i :: 0 <= i < |parts| ==> SepOnlyAtEnd(parts[i], sep)
    ensures Split(Join(parts, sep), sep) == parts
    decreases |parts|
  {
    if |parts| == 1 {
      SplitNoSep(parts[0], sep);
    } else {
      SplitJoin(parts[1..], sep);
      SplitLeadingPart(parts[0], sep, Join(parts[1..], sep));
      assert parts == [parts[0]] + parts[1..];
    }
  }

  /** No part of a split on one character contains that character. */
  lemma {:induction false} SplitPartsAvoid(s: string, c: char)
    ensures forall i :: 0 <= i < |Split(s, [c])| ==> c !in Split(s, [c])[i]
    decreases |s|
  {
    match FindFrom(s, [c], 0)
    case None =>
      forall k | 0 <= k < |s|
        ensures s[k] != c
      {
        assert !OccursAt(s, [c], k);
        assert s[k..k + 1] == [s[k]];
      }
    case Some(j) =>
      forall k | 0 <= k < j
        ensures s[k] != c
      {
        assert !OccursAt(s, [c], k);
        assert s[k..k + 1] == [s[k]];
      }
      assert c !in s[..j];
      SplitPartsAvoid(s[j + 1..], c);
  }

  /** A character absent from a string is absent from every part of its split. */
  lemma {:induction false} SplitPartsAvoidOther(s: string, sep: string, d: char)
    requires |sep| > 0 && d !in s
    ensures forall i :: 0 <= i < |Split(s, sep)| ==> d !in Split(s, sep)[i]
    decreases |s|
  {
    match FindFrom(s, sep, 0)
    case None =>
    case Some(j) =>
      assert d !in s[..j] by {
        assert forall k :: 0 <= k < j ==> s[..j][k] == s[k];
      }
      var t := s[j + |sep|..];
      forall k | 0 <= k < |t|
        ensures t[k] != d
      {
        assert t[k] == s[j + |sep| + k];
      }
      SplitPartsAvoidOther(s[j + |sep|..], sep, d);
  }

  /** Joining parts that avoid `c` with a separator that avoids `c` gives a string without `c`. */
  lemma {:induction false} JoinAvoids(parts: seq<string>, sep: string, c: char)
    requires c !in sep && forall i :: 0 <= i < |parts| ==> c !in parts[i]
    ensures c !in Join(parts, sep)
    decreases |parts|
  {
    if |parts| > 1 {
      JoinAvoids(parts[1..], sep, c);
    }
  }

  /** For a one-character separator, "only at the end" means "not in the part". */
  lemma SepOnlyAtEndChar(p: string, c: char)
    requires c !in p
    ensures SepOnlyAtEnd(p, [c])
  {
    forall k | 0 <= k < |p|
      ensures !OccursAt(p + [c], [c], k)
    {
      assert (p + [c])[k] == p[k];
    }
  }

  // ---------------------------------------------------------------------------
  // decimal digits

  function DigitChar(d: nat): char
    requires d < 10
  {
    "0123456789"[d]
  }

  function DigitVal(c: char): nat
    requires IsDigit(c)
  {
    (c as int) - ('0' as int)
  }

  /** The value of a run of decimal digits, most significant first. */
  function DigitsValue(s: string): nat
    requires AllDigits(s)
  {
    if |s| == 0 then 0 else 10 * DigitsValue(s[..|s| - 1]) + DigitVal(s[|s| - 1])
  }

  /** The value of digits written after a decimal point, `0.d1d2d3...`. */
  function FractionValue(s: string): (r: real)
    requires AllDigits(s)
    ensures 0.0 <= r < 1.0
  {
    if |s| == 0 then 0.0 else (DigitVal(s[0]) as real + FractionValue(s[1..])) / 10.0
  }

  /** Three digits after the point are thousandths. */
  lemma FractionOfThree(s: string)
    requires |s| == 3 && AllDigits(s)
    ensures FractionValue(s) == DigitsValue(s) as real / 1000.0
  {
    var d0, d1, d2 := DigitVal(s[0]), DigitVal(s[1]), DigitVal(s[2]);
    assert s[1..][1..][1..] == [];
    assert FractionValue(s[2..]) == d2 as real / 10.0;
    assert s[..2][..1][..0] == [];
    assert DigitsValue(s[..1]) == d0;
    assert DigitsValue(s[..2]) == 10 * d0 + d1;
    assert DigitsValue(s) == 100 * d0 + 10 * d1 + d2;
  }

  /** `str(n)` for a natural number. */
  function NatToString(n: nat): (r: string)
    ensures |r| >= 1 && AllDigits(r)
    ensures DigitsValue(r) == n
    ensures n < 10 <==> |r| == 1
    ensures 10 <= n < 100 ==> |r| == 2
    ensures 100 <= n < 1000 ==> |r| == 3
  {
    if n < 10 then [DigitChar(n)]
    else
      var r := NatToString(n / 10) + [DigitChar(n % 10)];
      assert r[..|r| - 1] == NatToString(n / 10);
      r
  }

  function Zeros(k: int): (r: string)
    ensures |r| == if k < 0 then 0 else k
    ensures AllDigits(r) && DigitsValue(r) == 0
    decreases k
  {
    if k <= 0 then "" else Zeros(k - 1) + "0"
  }

  lemma AllDigitsConcat(a: string, b: string)
    requires AllDigits(a) && AllDigits(b)
    ensures AllDigits(a + b)
  {
    var ab := a + b;
    forall i | 0 <= i < |ab|
      ensures IsDigit(ab[i])
    {
      if i < |a| { assert ab[i] == a[i]; } else { assert ab[i] == b[i - |a|]; }
    }
  }

  /** Digits written after `a` shift its value left by their count. */
  lemma {:induction false} DigitsValueAppend(a: string, b: string)
    requires AllDigits(a) && AllDigits(b)
    ensures AllDigits(a + b)
    ensures DigitsValue(a + b) == DigitsValue(a) * Pow10(|b|) + DigitsValue(b)
    decreases |b|
  {
    AllDigitsConcat(a, b);
    var ab := a + b;
    if |b| == 0 {
      assert ab == a;
    } else {
      var b' := b[..|b| - 1];
      assert ab[..|ab| - 1] == a + b';
      DigitsValueAppend(a, b');
      ShiftStep(DigitsValue(a), DigitsValue(b'), Pow10(|b'|), DigitVal(b[|b| - 1]));
    }
  }

  lemma ShiftStep(x: int, y: int, p: int, d: int)
    ensures 10 * (x * p + y) + d == x * (10 * p) + (10 * y + d)
  {
    MulLeftComm(10, x, p);
  }

  lemma MulLeftComm(a: int, b: int, c: int)
    ensures a * (b * c) == b * (a * c)
  {
  }

  function Pow10(k: nat): (r: nat)
    ensures r >= 1
  {
    if k == 0 then 1 else 10 * Pow10(k - 1)
  }

  /** Leading zeros do not change a digit run's value. */
  lemma LeadingZeros(k: int, s: string)
    requires AllDigits(s)
    ensures AllDigits(Zeros(k) + s) && DigitsValue(Zeros(k) + s) == DigitsValue(s)
  {
    DigitsValueAppend(Zeros(k), s);
  }

  /** The digits of `n`, with leading zeros up to `width` places. */
  function PadDigits(n: nat, width: int): (r: string)
    ensures AllDigits(r) && DigitsValue(r) == n
    ensures |r| >= 1 && |r| >= width
    ensures width >= 1 && n < Pow10(width) ==> |r| == width
  {
    var d := NatToString(n);
    LeadingZeros(width - |d|, d);
    NatToStringLength(n, width);
    Zeros(width - |d|) + d
  }

  /** Python's `f"{n:0{width}d}"`: sign first, then zeros up to the total width, then the digits. */
  function ZeroPad(n: int, width: nat): (r: string)
    ensures n >= 0 ==> r == PadDigits(n, width)
    ensures n < 0 ==> r == "-" + PadDigits(-n, width - 1)
  {
    if n < 0 then "-" + PadDigits(-n, width - 1) else PadDigits(n, width)
  }

  lemma NatToStringLength(n: nat, width: int)
    ensures width >= 1 && n < Pow10(width) ==> |NatToString(n)| <= width
  {
    if width >= 2 && n >= 10 {
      NatToStringLength(n / 10, width - 1);
    }
  }

  // ---------------------------------------------------------------------------
  // words

  /** Drop the leading run of non-space characters. */
  function DropWord(s: string): (r: string)
    ensures |r| <= |s| && r == s[|s| - |r|..]
    ensures |s| > 0 && !IsSpace(s[0]) ==> |r| < |s|
    ensures |r| > 0 ==> IsSpace(r[0])
  {
    if |s| > 0 && !IsSpace(s[0]) then DropWord(s[1..]) else s
  }

  /** `len(s.split())`: the number of maximal runs of non-space characters. */
  function WordCount(s: string): (n: nat)
    ensures |s| > 0 && !IsSpace(s[0]) ==> n >= 1
    ensures n <= |s|
    decreases |s|
  {
    if |s| == 0 then 0
    else if IsSpace(s[0]) then WordCount(s[1..])
    else 1 + WordCount(DropWord(s))
  }

  /** Whatever follows a word when it starts with a space stays after the dropped word. */
  lemma {:induction false} DropWordAppend(a: string, t: string)
    requires |t| > 0 && IsSpace(t[0])
    ensures DropWord(a + t) == DropWord(a) + t
  {
    if |a| > 0 && !IsSpace(a[0]) {
      assert (a + t)[1..] == a[1..] + t;
      DropWordAppend(a[1..], t);
    } else if |a| == 0 {
      assert a + t == t;
    }
  }

  /** Words do not run across a space: the words of `a + t` are those of `a` and then those of `t`. */
  lemma {:induction false} WordCountAppend(a: string, t: string)
    requires |t| > 0 && IsSpace(t[0])
    ensures WordCount(a + t) == WordCount(a) + WordCount(t)
    decreases |a|
  {
    if |a| == 0 {
      assert a + t == t;
    } else if IsSpace(a[0]) {
      assert (a + t)[1..] == a[1..] + t;
      WordCountAppend(a[1..], t);
    } else {
      DropWordAppend(a, t);
      WordCountAppend(DropWord(a), t);
    }
  }

  /** Two texts joined by a space have as many words as the two together. */
  lemma WordCountJoin(a: string, b: string)
    ensures WordCount(a + " " + b) == WordCount(a) + WordCount(b)
  {
    assert a + " " + b == a + (" " + b);
    WordCountAppend(a, " " + b);
    assert (" " + b)[1..] == b;
  }

  /** A non-empty run of non-space characters is one word, and whitespace alone is none. */
  lemma WordCountOne(w: string)
    ensures |w| > 0 && (forall i :: 0 <= i < |w| ==> !IsSpace(w[i])) ==> WordCount(w) == 1
    ensures (forall i :: 0 <= i < |w| ==> IsSpace(w[i])) ==> WordCount(w) == 0
  {
    if forall i :: 0 <= i < |w| ==> IsSpace(w[i]) {
      WordCountBlank(w);
    }
  }

  lemma {:induction false} WordCountBlank(w: string)
    requires forall i :: 0 <= i < |w| ==> IsSpace(w[i])
    ensures WordCount(w) == 0
  {
    if |w| > 0 {
      WordCountBlank(w[1..]);
    }
  }

  /** Map one character to another everywhere (`s.replace(a, b)` for single characters). */
  function ReplaceChar(s: string, a: char, b: char): (r: string)
    ensures |r| == |s|
  {
    if |s| == 0 then "" else [if s[0] == a then b else s[0]] + ReplaceChar(s[1..], a, b)
  }

  lemma ReplaceCharIndex(s: string, a: char, b: char)
    ensures forall i :: 0 <= i < |s| ==> ReplaceChar(s, a, b)[i] == (if s[i] == a then b else s[i])
  {
    if |s| > 0 {
      ReplaceCharIndex(s[1..], a, b);
    }
  }

  /** Replacing a character that does not occur changes nothing. */
  lemma ReplaceCharAbsent(s: string, a: char, b: char)
    requires a !in s
    ensures ReplaceChar(s, a, b) == s
  {
    ReplaceCharIndex(s, a, b);
  }
}
