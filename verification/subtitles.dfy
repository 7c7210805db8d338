/**
 * `generate_srt_content` and its inner `fmt_time` (backend/video_renderer.py):
 * decide once whether caption offsets are absolute or already relative to the
 * clip, shift and clamp every caption, and write numbered SRT blocks.
 */
module Subtitles {
  import opened Strings
  import opened RealArith
  import opened Timestamps
  import Srt

  /** A caption as the analyser hands it over; a missing key is `None`. */
  datatype Caption = Caption(startOffset: Option<real>, endOffset: Option<real>, text: Option<string>)

  /** `cap.get('start_offset', 0)` */
  function StartOf(c: Caption): real {
    if c.startOffset.Some? then c.startOffset.value else 0.0
  }

  /** `cap.get('end_offset', 0)` */
  function EndOf(c: Caption): real {
    if c.endOffset.Some? then c.endOffset.value else 0.0
  }

  /** `cap.get('text', '')` */
  function TextOf(c: Caption): string {
    if c.text.Some? then c.text.value else ""
  }

  // ---------------------------------------------------------------------------
  // absolute or relative

  function SumStarts(cs: seq<Caption>): real
  {
    if |cs| == 0 then 0.0 else SumStarts(cs[..|cs| - 1]) + StartOf(cs[|cs| - 1])
  }

  /** How many captions the heuristic looks at: `min(len(captions), 5)`. */
  function LeadCount(cs: seq<Caption>): nat {
    if |cs| < 5 then |cs| else 5
  }

  /** The mean start of the first (up to) five captions. */
  function MeanLeadStart(cs: seq<Caption>): real
    requires |cs| > 0
  {
    SumStarts(cs[..LeadCount(cs)]) / LeadCount(cs) as real
  }

  /** The captions look clip-relative: a clip starting past 10 s and captions starting well before it. */
  predicate LooksRelative(cs: seq<Caption>, timeOffset: real)
    requires |cs| > 0
  {
    timeOffset > 10.0 && MeanLeadStart(cs) < timeOffset - 5.0
  }

  /** The offset subtracted from every caption: none for clip-relative captions, else the clip start. */
  function EffectiveOffset(cs: seq<Caption>, timeOffset: real): real
    requires |cs| > 0
  {
    if LooksRelative(cs, timeOffset) then 0.0 else timeOffset
  }

  /**
   * The offset is either nothing or the clip start, and a clip starting in the
   * first ten seconds always has its start subtracted, whatever the captions.
   */
  lemma OffsetChoice(cs: seq<Caption>, timeOffset: real)
    requires |cs| > 0
    ensures EffectiveOffset(cs, timeOffset) == 0.0 || EffectiveOffset(cs, timeOffset) == timeOffset
    ensures timeOffset <= 10.0 ==> EffectiveOffset(cs, timeOffset) == timeOffset
  {
  }

  /** Every start is below `b`, so their sum is below `|cs| * b`. */
  lemma {:induction false} SumStartsBelow(cs: seq<Caption>, b: real)
    requires forall i :: 0 <= i < |cs| ==> StartOf(cs[i]) < b
    ensures |cs| > 0 ==> SumStarts(cs) < |cs| as real * b
    ensures SumStarts(cs) <= |cs| as real * b
    decreases |cs|
  {
    if |cs| > 0 {
      SumStartsBelow(cs[..|cs| - 1], b);
    }
  }

  /** Every start is at least `b`, so their sum is at least `|cs| * b`. */
  lemma {:induction false} SumStartsAbove(cs: seq<Caption>, b: real)
    requires forall i :: 0 <= i < |cs| ==> StartOf(cs[i]) >= b
    ensures SumStarts(cs) >= |cs| as real * b
    decreases |cs|
  {
    if |cs| > 0 {
      SumStartsAbove(cs[..|cs| - 1], b);
    }
  }

  /** Captions that all start more than 5 s before a clip starting past 10 s are taken as relative. */
  lemma RelativeCaptions(cs: seq<Caption>, timeOffset: real)
    requires |cs| > 0 && timeOffset > 10.0
    requires forall i :: 0 <= i < |cs| ==> StartOf(cs[i]) < timeOffset - 5.0
    ensures EffectiveOffset(cs, timeOffset) == 0.0
  {
    var n := LeadCount(cs);
    var lead := cs[..n];
    SumStartsBelow(lead, timeOffset - 5.0);
    var b := timeOffset - 5.0;
    assert SumStarts(lead) / n as real < b by {
      DivBelow(SumStarts(lead), n as real, b);
    }
  }

  /** Captions whose first five starts are all within 5 s of the clip start or later are taken as absolute. */
  lemma AbsoluteCaptions(cs: seq<Caption>, timeOffset: real)
    requires |cs| > 0
    requires forall i :: 0 <= i < LeadCount(cs) ==> StartOf(cs[i]) >= timeOffset - 5.0
    ensures EffectiveOffset(cs, timeOffset) == timeOffset
  {
    var n := LeadCount(cs);
    var lead := cs[..n];
    SumStartsAbove(lead, timeOffset - 5.0);
    DivAbove(SumStarts(lead), n as real, timeOffset - 5.0);
  }

  lemma DivBelow(s: real, n: real, b: real)
    requires n > 0.0 && s < n * b
    ensures s / n < b
  {
  }

  lemma DivAbove(s: real, n: real, b: real)
    requires n > 0.0 && s >= n * b
    ensures s / n >= b
  {
  }

  // ---------------------------------------------------------------------------
  // shifting

  /** `max(0.0, v - effective_offset)` */
  function Shift(v: real, eff: real): (r: real)
    ensures r >= 0.0 && r >= v - eff
    ensures r == 0.0 || r == v - eff
  {
    if v - eff > 0.0 then v - eff else 0.0
  }

  /** Shifting keeps order, so a caption that ends after it starts still does. */
  lemma ShiftMonotone(a: real, b: real, eff: real)
    requires a <= b
    ensures Shift(a, eff) <= Shift(b, eff)
  {
  }

  // ---------------------------------------------------------------------------
  // fmt_time

  /** `int((t * 1000) % 1000)` */
  function MillisField(t: real): int
  {
    Trunc(Mod(t * 1000.0, 1000.0))
  }

  /** `fmt_time`: `HH:MM:SS,mmm`. */
  function FmtTime(t: real): string
  {
    var c := ClockOf(t);
    ZeroPad(c.hours, 2) + ":" + ZeroPad(c.minutes, 2) + ":" + ZeroPad(c.seconds, 2) + "," + ZeroPad(MillisField(t), 3)
  }

  /** The milliseconds field is the part of `t`, in whole milliseconds, past its whole second. */
  lemma MillisFieldValue(t: real)
    ensures 0 <= MillisField(t) < 1000
    ensures MillisField(t) == (t * 1000.0).Floor - 1000 * t.Floor
  {
    var x := t * 1000.0;
    FloorOfQuotient(x, 1000);
    assert x / 1000.0 == t;
    var q := FloorDiv(x, 1000.0);
    assert q == x.Floor / 1000;
    var r := Mod(x, 1000.0);
    FloorShift(x, 1000 * q);
    assert r == x - (1000 * q) as real;
    assert x.Floor / 1000 == t.Floor by {
      FloorOfQuotient(x, 1000);
    }
  }

  /**
   * For a time that is not negative the four fields encode the time truncated
   * to whole milliseconds: minutes and seconds in 0..59, millis in 0..999.
   */
  lemma FmtFields(t: real)
    requires t >= 0.0
    ensures var c := ClockOf(t);
      && c.hours >= 0 && 0 <= c.minutes < 60 && 0 <= c.seconds < 60 && 0 <= MillisField(t) < 1000
      && ((c.hours * 3600 + c.minutes * 60 + c.seconds) * 1000 + MillisField(t)) == (t * 1000.0).Floor
  {
    ClockFields(t);
    MillisFieldValue(t);
  }

  /** `HH:MM:SS,mmm` assembled from digit strings of the right widths. */
  lemma StampOfPieces(g: string, hh: string, mm: string, ss: string, ms: string)
    requires |hh| == 2 && |mm| == 2 && |ss| == 2 && |ms| == 3
    requires AllDigits(hh) && AllDigits(mm) && AllDigits(ss) && AllDigits(ms)
    requires g == hh + ":" + mm + ":" + ss + "," + ms
    ensures |g| == 12 && Srt.StampAt(g, 0)
    ensures Srt.StampValue(g) == (DigitsValue(hh) * 3600 + DigitsValue(mm) * 60 + DigitsValue(ss)) as real
                                 + DigitsValue(ms) as real / 1000.0
  {
    PiecesAt(g, hh, mm, ss, ms);
    StampOfChars(g, hh, mm, ss, ms);
  }

  /** Where each piece's characters land in the assembled stamp. */
  lemma PiecesAt(g: string, hh: string, mm: string, ss: string, ms: string)
    requires |hh| == 2 && |mm| == 2 && |ss| == 2 && |ms| == 3
    requires g == hh + ":" + mm + ":" + ss + "," + ms
    ensures |g| == 12 && g[2] == ':' && g[5] == ':' && g[8] == ','
    ensures g[0] == hh[0] && g[1] == hh[1] && g[3] == mm[0] && g[4] == mm[1]
    ensures g[6] == ss[0] && g[7] == ss[1] && g[9] == ms[0] && g[10] == ms[1] && g[11] == ms[2]
  {
  }

  lemma StampOfChars(g: string, hh: string, mm: string, ss: string, ms: string)
    requires |hh| == 2 && |mm| == 2 && |ss| == 2 && |ms| == 3
    requires AllDigits(hh) && AllDigits(mm) && AllDigits(ss) && AllDigits(ms)
    requires |g| == 12 && g[2] == ':' && g[5] == ':' && g[8] == ','
    requires g[0] == hh[0] && g[1] == hh[1] && g[3] == mm[0] && g[4] == mm[1]
    requires g[6] == ss[0] && g[7] == ss[1] && g[9] == ms[0] && g[10] == ms[1] && g[11] == ms[2]
    ensures Srt.StampAt(g, 0)
    ensures Srt.StampValue(g) == (DigitsValue(hh) * 3600 + DigitsValue(mm) * 60 + DigitsValue(ss)) as real
                                 + DigitsValue(ms) as real / 1000.0
  {
    TwoAt(g, 0, hh);
    TwoAt(g, 3, mm);
    TwoAt(g, 6, ss);
    ThreeAt(g, 9, ms);
    StampDigits(g, DigitsValue(hh), DigitsValue(mm), DigitsValue(ss), DigitsValue(ms));
  }

  /** A two-digit group copied into `g` at `k` keeps its value. */
  lemma TwoAt(g: string, k: nat, x: string)
    requires |x| == 2 && AllDigits(x) && k + 1 < |g| && g[k] == x[0] && g[k + 1] == x[1]
    ensures IsDigit(g[k]) && IsDigit(g[k + 1]) && DigitsValue(x) == 10 * DigitVal(g[k]) + DigitVal(g[k + 1])
  {
    Srt.TwoDigits(x);
  }

  /** A three-digit group copied into `g` at `k` keeps its value. */
  lemma ThreeAt(g: string, k: nat, x: string)
    requires |x| == 3 && AllDigits(x) && k + 2 < |g| && g[k] == x[0] && g[k + 1] == x[1] && g[k + 2] == x[2]
    ensures IsDigit(g[k]) && IsDigit(g[k + 1]) && IsDigit(g[k + 2])
    ensures DigitsValue(x) == 100 * DigitVal(g[k]) + 10 * DigitVal(g[k + 1]) + DigitVal(g[k + 2])
  {
    Srt.ThreeDigits(x);
  }

  /** A stamp's value from the values of its four digit groups. */
  lemma StampDigits(g: string, h: int, m: int, s: int, f: int)
    requires Srt.StampAt(g, 0)
    requires h == 10 * DigitVal(g[0]) + DigitVal(g[1]) && m == 10 * DigitVal(g[3]) + DigitVal(g[4])
    requires s == 10 * DigitVal(g[6]) + DigitVal(g[7])
    requires f == 100 * DigitVal(g[9]) + 10 * DigitVal(g[10]) + DigitVal(g[11])
    ensures Srt.StampValue(g) == (h * 3600 + m * 60 + s) as real + f as real / 1000.0
  {
  }

  /** Below 100 hours `fmt_time` writes a stamp the SRT parser recognises, worth `t` to the millisecond. */
  lemma FmtTimeStamp(t: real)
    requires 0.0 <= t < 360000.0
    ensures |FmtTime(t)| == 12 && Srt.StampAt(FmtTime(t), 0)
    ensures Srt.StampValue(FmtTime(t)) == Millis(t)
  {
    var c := ClockOf(t);
    var ms := MillisField(t);
    FmtFields(t);
    assert c.hours < 100 by {
      assert t.Floor < 360000;
    }
    var hh, mm, ss, mmm := PadDigits(c.hours, 2), PadDigits(c.minutes, 2), PadDigits(c.seconds, 2), PadDigits(ms, 3);
    assert FmtTime(t) == hh + ":" + mm + ":" + ss + "," + mmm;
    StampOfPieces(FmtTime(t), hh, mm, ss, mmm);
  }

  /** `t` truncated to whole milliseconds: what a stamp keeps of it. */
  function Millis(t: real): real
  {
    (t * 1000.0).Floor as real / 1000.0
  }

  /** What the stamp of `t` loses: less than a millisecond, and never more than `t`. */
  lemma MillisecondAccuracy(t: real)
    ensures Millis(t) <= t < Millis(t) + 0.001
  {
  }

  // ---------------------------------------------------------------------------
  // the SRT text

  /** One numbered caption, its times already shifted. */
  datatype Cue = Cue(index: nat, start: real, end: real, text: string)

  /** The cue caption `c` becomes as the `i`-th, its times shifted by `eff`. */
  function CueOf(c: Caption, eff: real, i: nat): Cue
  {
    Cue(i, Shift(StartOf(c), eff), Shift(EndOf(c), eff), TextOf(c))
  }

  /** The cues of `cs`, numbered from `i`. */
  function Cues(cs: seq<Caption>, eff: real, i: nat): seq<Cue>
  {
    seq(|cs|, k requires 0 <= k < |cs| => CueOf(cs[k], eff, i + k))
  }

  /** The four strings a block is written from: number, start stamp, end stamp and text. */
  datatype Pieces = Pieces(number: string, from: string, to: string, text: string)

  /** What `fmt_time` and `str` make of a cue. */
  function Written(q: Cue): (p: Pieces)
    ensures p.text == q.text && AllDigits(p.number) && DigitsValue(p.number) == q.index
  {
    Pieces(NatToString(q.index), FmtTime(q.start), FmtTime(q.end), q.text)
  }

  function WrittenAll(qs: seq<Cue>): (r: seq<Pieces>)
    ensures |r| == |qs|
    ensures forall k :: 0 <= k < |qs| ==> r[k] == Written(qs[k])
  {
    seq(|qs|, k requires 0 <= k < |qs| => Written(qs[k]))
  }

  /** A block without its trailing blank line: `i\nSTART --> END\ntext`. */
  function Core(p: Pieces): string
  {
    p.number + "\n" + p.from + " --> " + p.to + "\n" + p.text
  }

  /** One block: the core and a blank line. */
  function Block(p: Pieces): string
  {
    Core(p) + "\n\n"
  }

  /** The blocks written one after another. */
  function Render(ps: seq<Pieces>): (r: string)
    ensures r == "" <==> |ps| == 0
    decreases |ps|
  {
    if |ps| == 0 then "" else Block(ps[0]) + Render(ps[1..])
  }

  /** `generate_srt_content` */
  function GenerateSrt(cs: seq<Caption>, timeOffset: real): (r: string)
    ensures r == "" <==> |cs| == 0
  {
    if |cs| == 0 then "" else Render(WrittenAll(Cues(cs, EffectiveOffset(cs, timeOffset), 1)))
  }

  // ---------------------------------------------------------------------------
  // hex_to_ffmpeg_color

  /** `hex_to_ffmpeg_color` */
  function HexToFfmpeg(color: string): string
  {
    if |color| > 0 && color[0] == '#' then "0x" + color[1..] + "FF" else "white"
  }

  /** Distinct `#` colours map to distinct FFmpeg colours. */
  lemma HexInjective(a: string, b: string)
    requires |a| > 0 && a[0] == '#' && |b| > 0 && b[0] == '#'
    requires HexToFfmpeg(a) == HexToFfmpeg(b)
    ensures a == b
  {
    var r := HexToFfmpeg(a);
    assert r[2..|r| - 2] == a[1..];
    assert r[2..|r| - 2] == b[1..];
    assert a == a[..1] + a[1..] && b == b[..1] + b[1..];
  }

  /** The colour digits survive the mapping and can be read back; other inputs all give "white". */
  lemma HexRoundTrip(digits: string)
    ensures var r := HexToFfmpeg("#" + digits);
      |r| == |digits| + 4 && r[2..|r| - 2] == digits && r != "white"
  {
    var r := HexToFfmpeg("#" + digits);
    assert ("#" + digits)[1..] == digits;
    assert r[2..|r| - 2] == digits;
    assert r[..2] == "0x";
  }
}
