/**
 * The subtitle file the renderer writes is one the transcript parser reads
 * back: `parse_srt(generate_srt_content(captions, t))` gives one entry per
 * caption, in order, with the shifted times truncated to whole milliseconds
 * and the caption text split into speaker and words as `parse_srt` does.
 */
module RoundTrip {
  import opened Strings
  import opened Entries
  import opened Subtitles
  import Srt
  import Transcript

  /** The cores of the blocks, in order. */
  function Cores(ps: seq<Pieces>): (r: seq<string>)
    ensures |r| == |ps|
    decreases |ps|
  {
    if |ps| == 0 then [] else [Core(ps[0])] + Cores(ps[1..])
  }

  /**
   * A block the parser can read back: a number, two stamps, and one line of
   * text, non-empty and without surrounding whitespace (otherwise `strip`
   * and the split into blocks would move it).
   */
  predicate Readable(p: Pieces) {
    && |p.number| > 0 && AllDigits(p.number)
    && |p.from| == 12 && Srt.StampAt(p.from, 0) && |p.to| == 12 && Srt.StampAt(p.to, 0)
    && |p.text| > 0 && Trimmed(p.text) && '\n' !in p.text
  }

  /** The entry a readable block comes back as. */
  function Expected(p: Pieces): Entry
    requires Readable(p)
  {
    var (speaker, said) := Srt.SplitSpeaker(p.text);
    Entry(Srt.StampValue(p.from), Srt.StampValue(p.to), speaker, said)
  }

  function ExpectedAll(ps: seq<Pieces>): (r: seq<Entry>)
    requires forall k :: 0 <= k < |ps| ==> Readable(ps[k])
    ensures |r| == |ps|
    decreases |ps|
  {
    if |ps| == 0 then [] else [Expected(ps[0])] + ExpectedAll(ps[1..])
  }

  // ---------------------------------------------------------------------------
  // one block

  lemma Append3(x: string, y: string, z: string)
    ensures x + (y + z) == x + y + z
  {
  }

  /** A digit is not whitespace. */
  lemma DigitNotSpace(c: char)
    requires IsDigit(c)
    ensures !IsSpace(c)
  {
  }

  lemma DigitsNoNewline(num: string)
    requires AllDigits(num)
    ensures '\n' !in num
  {
    forall k | 0 <= k < |num|
      ensures num[k] != '\n'
    {
      assert IsDigit(num[k]);
    }
  }

  /** The three lines of a block: how it is trimmed and split. */
  lemma CoreLines(core: string, num: string, line: string, text: string)
    requires |num| > 0 && AllDigits(num) && |line| > 0 && '\n' !in line
    requires |text| > 0 && Trimmed(text) && '\n' !in text
    requires core == num + "\n" + line + "\n" + text
    ensures Trimmed(core) && |core| > 0
    ensures SepOnlyAtEnd(core, "\n\n")
    ensures Split(core, "\n") == [num, line, text]
  {
    var tail := line + "\n" + text;
    var head := num + "\n";
    Append3(head, line, "\n");
    Append3(head, line + "\n", text);
    assert core == num + "\n" + tail;
    DigitsNoNewline(num);
    CoreTrimmed(core, num, tail, text);
    CoreNoBlankLine(core, num, line, text, tail);
    CoreSplit(core, num, line, text, tail);
  }

  lemma CoreTrimmed(core: string, num: string, tail: string, text: string)
    requires |num| > 0 && AllDigits(num) && |text| > 0 && Trimmed(text)
    requires |tail| >= |text| && tail[|tail| - |text|..] == text
    requires core == num + "\n" + tail
    ensures Trimmed(core) && |core| > 0
  {
    assert core[0] == num[0];
    assert core[|core| - 1] == tail[|tail| - 1] == text[|text| - 1];
    DigitNotSpace(num[0]);
  }

  lemma CoreSplit(core: string, num: string, line: string, text: string, tail: string)
    requires '\n' !in num && '\n' !in line && '\n' !in text
    requires tail == line + "\n" + text && core == num + "\n" + tail
    ensures Split(core, "\n") == [num, line, text]
  {
    SepOnlyAtEndChar(num, '\n');
    SepOnlyAtEndChar(line, '\n');
    SepOnlyAtEndChar(text, '\n');
    SplitLeadingPart(num, "\n", tail);
    SplitLeadingPart(line, "\n", text);
    SplitNoSep(text, "\n");
  }

  /** Two newlines meet nowhere in a block, and it does not end in one. */
  lemma CoreNoBlankLine(core: string, num: string, line: string, text: string, tail: string)
    requires |num| > 0 && '\n' !in num && |line| > 0 && '\n' !in line && |text| > 0 && '\n' !in text
    requires tail == line + "\n" + text && core == num + "\n" + tail
    ensures SepOnlyAtEnd(core, "\n\n")
  {
    var c := core + "\n\n";
    var i := |num|;
    var j := |num| + 1 + |line|;
    forall k | 0 <= k < |core|
      ensures c[k] != '\n' || c[k + 1] != '\n'
    {
      if k < i {
        assert c[k] == num[k];
      } else if k == i {
        assert c[k + 1] == line[0];
      } else if k < j {
        assert c[k] == line[k - i - 1];
      } else if k == j {
        assert c[k + 1] == text[0];
      } else {
        assert c[k] == text[k - j - 1];
      }
    }
    forall k | 0 <= k < |core|
      ensures !OccursAt(c, "\n\n", k)
    {
      assert c[k..k + 2][0] == c[k] && c[k..k + 2][1] == c[k + 1];
    }
  }

  /** The cue line of two stamps is found at its start, the second stamp 17 characters in. */
  lemma CueLineStamps(line: string, a: string, b: string)
    requires |a| == 12 && |b| == 12 && Srt.StampAt(a, 0) && Srt.StampAt(b, 0)
    requires line == a + " --> " + b
    ensures |line| == 29 && '\n' !in line
    ensures Srt.FindPair(line, 0) == Some(0) && Srt.SecondStamp(line, 0) == Some(17)
    ensures Srt.StampSeconds(line, 0) == Srt.StampValue(a)
    ensures Srt.StampSeconds(line, 17) == Srt.StampValue(b)
  {
    StampNoNewline(a);
    StampNoNewline(b);
    CueLineChars(line, a, b);
    CueLineMatch(line);
  }

  /** A stamp is digits and punctuation: no newline. */
  lemma StampNoNewline(g: string)
    requires |g| == 12 && Srt.StampAt(g, 0)
    ensures '\n' !in g
  {
    forall k | 0 <= k < 12
      ensures g[k] != '\n'
    {
    }
  }

  /** Where the characters of a cue line come from. */
  lemma CueLineChars(line: string, a: string, b: string)
    requires |a| == 12 && |b| == 12 && '\n' !in a && '\n' !in b
    requires line == a + " --> " + b
    ensures |line| == 29 && line[0..12] == a && line[17..29] == b
    ensures line[12] == ' ' && line[13] == '-' && line[14] == '-' && line[15] == '>' && line[16] == ' '
    ensures '\n' !in line
  {
    forall k | 0 <= k < |line|
      ensures line[k] != '\n'
    {
      if k < 12 {
        assert line[k] == a[k];
      } else if k >= 17 {
        assert line[k] == b[k - 17];
      }
    }
  }

  /** The cue pattern matches a stamp, ` --> ` and a stamp at the start of the line. */
  lemma CueLineMatch(line: string)
    requires |line| == 29 && Srt.StampAt(line[0..12], 0) && Srt.StampAt(line[17..29], 0)
    requires line[12] == ' ' && line[13] == '-' && line[14] == '-' && line[15] == '>' && line[16] == ' '
    ensures Srt.StampAt(line, 0) && Srt.StampAt(line, 17)
    ensures Srt.FindPair(line, 0) == Some(0) && Srt.SecondStamp(line, 0) == Some(17)
  {
    var a, b := line[0..12], line[17..29];
    assert forall k :: 0 <= k < 12 ==> line[k] == a[k] && line[17 + k] == b[k];
    assert SkipSpaces(line, 12) == 13 by {
      assert SkipSpaces(line, 13) == 13;
    }
    assert SkipSpaces(line, 16) == 17 by {
      assert SkipSpaces(line, 17) == 17;
    }
  }

  /** One block parses to the expected entry. */
  lemma CoreEntry(p: Pieces)
    requires Readable(p)
    ensures Trimmed(Core(p)) && |Core(p)| > 0 && SepOnlyAtEnd(Core(p), "\n\n")
    ensures Srt.BlockEntry(Core(p)) == Some(Expected(p))
  {
    var line := p.from + " --> " + p.to;
    CueLineStamps(line, p.from, p.to);
    Append3(p.number + "\n", p.from + " --> ", p.to);
    Append3(p.number + "\n", p.from, " --> ");
    assert Core(p) == p.number + "\n" + line + "\n" + p.text;
    CoreLines(Core(p), p.number, line, p.text);
    StripTrimmed(Core(p));
    var lines := [p.number, line, p.text];
    assert lines[2..] == [p.text];
    assert Join(lines[2..], " ") == p.text;
  }

  // ---------------------------------------------------------------------------
  // the whole file

  /** The blocks written one after another are the cores joined by blank lines, plus one. */
  lemma {:induction false} RenderJoin(ps: seq<Pieces>)
    requires |ps| > 0
    ensures Render(ps) == Join(Cores(ps), "\n\n") + "\n\n"
    decreases |ps|
  {
    if |ps| > 1 {
      RenderJoin(ps[1..]);
      var rest := Cores(ps[1..]);
      assert Cores(ps) == [Core(ps[0])] + rest;
      assert Join(Cores(ps), "\n\n") == Core(ps[0]) + "\n\n" + Join(rest, "\n\n");
    }
  }

  /** Joining trimmed, non-empty parts gives a trimmed, non-empty string. */
  lemma {:induction false} JoinTrimmed(parts: seq<string>, sep: string)
    requires |parts| > 0
    requires forall k :: 0 <= k < |parts| ==> |parts[k]| > 0 && Trimmed(parts[k])
    ensures |Join(parts, sep)| > 0 && Trimmed(Join(parts, sep))
    decreases |parts|
  {
    if |parts| > 1 {
      JoinTrimmed(parts[1..], sep);
      var j := Join(parts, sep);
      var tail := Join(parts[1..], sep);
      assert j == parts[0] + sep + tail;
      assert j[0] == parts[0][0];
      assert j[|j| - 1] == tail[|tail| - 1];
    }
  }

  lemma {:induction false} CoresFacts(ps: seq<Pieces>)
    requires forall k :: 0 <= k < |ps| ==> Readable(ps[k])
    ensures forall k :: 0 <= k < |ps| ==> |Cores(ps)[k]| > 0 && Trimmed(Cores(ps)[k])
    ensures forall k :: 0 <= k < |ps| ==> SepOnlyAtEnd(Cores(ps)[k], "\n\n")
    ensures Srt.BlockEntries(Cores(ps)) == ExpectedAll(ps)
    decreases |ps|
  {
    if |ps| > 0 {
      CoresFacts(ps[1..]);
      CoreEntry(ps[0]);
      var c := Cores(ps);
      assert c == [Core(ps[0])] + Cores(ps[1..]);
      assert c[1..] == Cores(ps[1..]);
    }
  }

  /** Every readable block comes back as its expected entry, in order. */
  lemma RenderParses(ps: seq<Pieces>)
    requires forall k :: 0 <= k < |ps| ==> Readable(ps[k])
    ensures Srt.ParseSrt(Render(ps)) == ExpectedAll(ps)
  {
    if |ps| > 0 {
      RenderJoin(ps);
      CoresFacts(ps);
      ParseJoined(Cores(ps), Render(ps));
    } else {
      ParseEmpty();
    }
  }

  /** An empty file has no entries. */
  lemma ParseEmpty()
    ensures Srt.ParseSrt("") == []
  {
    assert Strip("") == "";
    assert Split("", "\n\n") == [""];
    assert Split("", "\n") == [""];
  }

  /** Blocks joined by blank lines, with one more at the end, split back into the blocks. */
  lemma ParseJoined(cores: seq<string>, s: string)
    requires |cores| > 0
    requires forall k :: 0 <= k < |cores| ==> |cores[k]| > 0 && Trimmed(cores[k])
    requires forall k :: 0 <= k < |cores| ==> SepOnlyAtEnd(cores[k], "\n\n")
    requires s == Join(cores, "\n\n") + "\n\n"
    ensures Srt.ParseSrt(s) == Srt.BlockEntries(cores)
  {
    JoinTrimmed(cores, "\n\n");
    StripAppendSpace(Join(cores, "\n\n"), "\n\n");
    SplitJoin(cores, "\n\n");
  }

  /** The `k`-th expected entry is that of the `k`-th cue. */
  lemma {:induction false} ExpectedAt(ps: seq<Pieces>, k: nat)
    requires forall i :: 0 <= i < |ps| ==> Readable(ps[i])
    requires k < |ps|
    ensures ExpectedAll(ps)[k] == Expected(ps[k])
    decreases k
  {
    if k > 0 {
      ExpectedAt(ps[1..], k - 1);
      assert ps[1..][k - 1] == ps[k];
    }
  }

  // ---------------------------------------------------------------------------
  // from captions

  /**
   * A cue whose block reads back: times below 100 hours (the stamp has two
   * hour digits) and a one-line text as `Readable` asks.
   */
  predicate ReadableCue(q: Cue) {
    && 0.0 <= q.start < 360000.0 && 0.0 <= q.end < 360000.0
    && |q.text| > 0 && Trimmed(q.text) && '\n' !in q.text
  }

  /** A readable cue is written as a readable block whose stamps are its times to the millisecond. */
  lemma WrittenReadable(q: Cue)
    requires ReadableCue(q)
    ensures Readable(Written(q))
    ensures Srt.StampValue(Written(q).from) == Millis(q.start)
    ensures Srt.StampValue(Written(q).to) == Millis(q.end)
  {
    FmtTimeStamp(q.start);
    FmtTimeStamp(q.end);
    assert Written(q).from == FmtTime(q.start) && Written(q).to == FmtTime(q.end);
  }

  /** A caption whose cue, shifted by `eff`, is readable, whatever its number. */
  predicate CaptionReadable(c: Caption, eff: real) {
    && Shift(StartOf(c), eff) < 360000.0 && Shift(EndOf(c), eff) < 360000.0
    && |TextOf(c)| > 0 && Trimmed(TextOf(c)) && '\n' !in TextOf(c)
  }

  /** The generated file parses to the expected entries of the written cues. */
  lemma GenerateParses(cs: seq<Caption>, timeOffset: real)
    requires |cs| > 0
    requires forall i :: 0 <= i < |cs| ==> CaptionReadable(cs[i], EffectiveOffset(cs, timeOffset))
    ensures var ps := WrittenAll(Cues(cs, EffectiveOffset(cs, timeOffset), 1));
      && (forall i :: 0 <= i < |ps| ==> Readable(ps[i]))
      && Srt.ParseSrt(GenerateSrt(cs, timeOffset)) == ExpectedAll(ps)
  {
    var eff := EffectiveOffset(cs, timeOffset);
    var qs := Cues(cs, eff, 1);
    var ps := WrittenAll(qs);
    forall i | 0 <= i < |ps|
      ensures Readable(ps[i])
    {
      CuesAt(cs, eff, 1, i);
      CueReadable(cs[i], eff, 1 + i);
      WrittenReadable(qs[i]);
    }
    RenderParses(ps);
  }

  /** The `k`-th cue is the `k`-th caption's, numbered `i + k`. */
  lemma CuesAt(cs: seq<Caption>, eff: real, i: nat, k: nat)
    requires k < |cs|
    ensures |Cues(cs, eff, i)| == |cs| && Cues(cs, eff, i)[k] == CueOf(cs[k], eff, i + k)
  {
  }

  lemma CueReadable(c: Caption, eff: real, i: nat)
    requires CaptionReadable(c, eff)
    ensures ReadableCue(CueOf(c, eff, i))
  {
  }

  /**
   * `parse_srt(generate_srt_content(captions, t))`: one entry per caption, in
   * order; its times are the caption's shifted times cut to whole
   * milliseconds, and its speaker and text are what `parse_srt` reads from
   * the caption text.
   */
  lemma GenerateThenParse(cs: seq<Caption>, timeOffset: real, k: nat)
    requires |cs| > 0
    requires forall i :: 0 <= i < |cs| ==> CaptionReadable(cs[i], EffectiveOffset(cs, timeOffset))
    requires k < |cs|
    ensures |Srt.ParseSrt(GenerateSrt(cs, timeOffset))| == |cs|
    ensures k < |Srt.ParseSrt(GenerateSrt(cs, timeOffset))| &&
      var e := Srt.ParseSrt(GenerateSrt(cs, timeOffset))[k];
      var eff := EffectiveOffset(cs, timeOffset);
      && e.startTime == Millis(Shift(StartOf(cs[k]), eff))
      && e.endTime == Millis(Shift(EndOf(cs[k]), eff))
      && CaptionReadable(cs[k], eff)
      && (e.speaker, e.text) == Srt.SplitSpeaker(TextOf(cs[k]))
  {
    GenerateParses(cs, timeOffset);
    EntryAt(Srt.ParseSrt(GenerateSrt(cs, timeOffset)), cs, EffectiveOffset(cs, timeOffset), k);
  }

  /** The `k`-th entry read back from the written cues of `cs` is the `k`-th caption's. */
  lemma EntryAt(es: seq<Entry>, cs: seq<Caption>, eff: real, k: nat)
    requires forall i :: 0 <= i < |cs| ==> CaptionReadable(cs[i], eff)
    requires k < |cs|
    requires var ps := WrittenAll(Cues(cs, eff, 1));
      (forall i :: 0 <= i < |ps| ==> Readable(ps[i])) && es == ExpectedAll(ps)
    ensures |es| == |cs|
    ensures k < |es|
    ensures es[k].startTime == Millis(Shift(StartOf(cs[k]), eff))
    ensures es[k].endTime == Millis(Shift(EndOf(cs[k]), eff))
    ensures CaptionReadable(cs[k], eff) && (es[k].speaker, es[k].text) == Srt.SplitSpeaker(TextOf(cs[k]))
  {
    var qs := Cues(cs, eff, 1);
    var ps := WrittenAll(qs);
    CuesAt(cs, eff, 1, k);
    ExpectedAt(ps, k);
    CaptionEntry(cs[k], eff, 1 + k, ps[k]);
  }

  /** The block written for a readable caption reads back as its shifted times and its text's speaker split. */
  lemma CaptionEntry(c: Caption, eff: real, i: nat, p: Pieces)
    requires CaptionReadable(c, eff) && p == Written(CueOf(c, eff, i))
    ensures Readable(p)
    ensures Expected(p).startTime == Millis(Shift(StartOf(c), eff))
    ensures Expected(p).endTime == Millis(Shift(EndOf(c), eff))
    ensures (Expected(p).speaker, Expected(p).text) == Srt.SplitSpeaker(TextOf(c))
  {
    CueReadable(c, eff, i);
    WrittenReadable(CueOf(c, eff, i));
    ExpectedFields(p);
  }

  lemma ExpectedFields(p: Pieces)
    requires Readable(p)
    ensures Expected(p).startTime == Srt.StampValue(p.from) && Expected(p).endTime == Srt.StampValue(p.to)
    ensures (Expected(p).speaker, Expected(p).text) == Srt.SplitSpeaker(p.text)
  {
  }

  // ---------------------------------------------------------------------------
  // detection

  /** A join starts with its first part. */
  lemma JoinStarts(parts: seq<string>, sep: string)
    requires |parts| > 0
    ensures |Join(parts, sep)| >= |parts[0]| && Join(parts, sep)[..|parts[0]|] == parts[0]
  {
    if |parts| > 1 {
      assert Join(parts, sep) == parts[0] + (sep + Join(parts[1..], sep));
    }
  }

  /** A file whose first block is numbered 1 holds the SRT cue pattern at its start. */
  lemma CueAtStart(c: string, p: Pieces)
    requires Readable(p) && p.number == "1"
    requires |c| >= |Core(p)| && c[..|Core(p)|] == Core(p)
    ensures Transcript.CueAt(c, 0)
  {
    var core := Core(p);
    var line := p.from + " --> " + p.to;
    Append3(p.number + "\n", p.from + " --> ", p.to);
    Append3(p.number + "\n", p.from, " --> ");
    assert core == "1\n" + line + "\n" + p.text;
    StampNoNewline(p.from);
    StampNoNewline(p.to);
    CueLineChars(line, p.from, p.to);
    forall k | 0 <= k < 29
      ensures c[2 + k] == line[k]
    {
      assert c[2 + k] == core[2 + k];
    }
    assert c[0] == '1' && c[1] == '\n' by {
      assert c[0] == core[0] && c[1] == core[1];
    }
    forall k | 0 <= k < 12
      ensures c[2 + k] == p.from[k]
    {
      assert line[k] == p.from[k];
    }
    assert Transcript.CueAt(c, 0) by {
      assert SkipSpaces(c, 14) == 15 by {
        assert SkipSpaces(c, 15) == 15;
      }
    }
  }

  /** The blocks, stripped, are the cores joined by blank lines: a trimmed text starting with the first core. */
  lemma StrippedRender(ps: seq<Pieces>)
    requires |ps| > 0 && forall k :: 0 <= k < |ps| ==> Readable(ps[k])
    ensures Strip(Render(ps)) == Join(Cores(ps), "\n\n") && Trimmed(Strip(Render(ps)))
    ensures var c := Strip(Render(ps)); |c| >= |Core(ps[0])| && c[..|Core(ps[0])|] == Core(ps[0])
  {
    var cores := Cores(ps);
    RenderJoin(ps);
    CoresFacts(ps);
    JoinTrimmed(cores, "\n\n");
    StripAppendSpace(Join(cores, "\n\n"), "\n\n");
    JoinStarts(cores, "\n\n");
  }

  lemma OneWritten()
    ensures NatToString(1) == "1"
  {
    assert DigitChar(1) == '1';
  }

  /** Blocks numbered from 1 are detected as SRT. */
  lemma RenderDetected(ps: seq<Pieces>)
    requires |ps| > 0 && forall k :: 0 <= k < |ps| ==> Readable(ps[k])
    requires ps[0].number == "1"
    ensures Transcript.Detect(Strip(Render(ps))) == Transcript.SrtFormat
  {
    StrippedRender(ps);
    var c := Strip(Render(ps));
    CueAtStart(c, ps[0]);
    assert c[0] == Core(ps[0])[0] == '1';
    assert !StartsWith(c, Transcript.Header) by {
      assert c[..6][0] == c[0];
    }
  }

  /**
   * Without a format hint the generated file is recognised as SRT, so
   * `parse_transcript` reads it exactly as `parse_srt` does.
   */
  lemma GeneratedDetectedAsSrt(cs: seq<Caption>, timeOffset: real)
    requires |cs| > 0
    requires forall i :: 0 <= i < |cs| ==> CaptionReadable(cs[i], EffectiveOffset(cs, timeOffset))
    ensures Transcript.Detect(Strip(GenerateSrt(cs, timeOffset))) == Transcript.SrtFormat
    ensures Transcript.ParseTranscript(GenerateSrt(cs, timeOffset), None) == Srt.ParseSrt(GenerateSrt(cs, timeOffset))
  {
    var qs := Cues(cs, EffectiveOffset(cs, timeOffset), 1);
    var ps := WrittenAll(qs);
    GenerateParses(cs, timeOffset);
    OneWritten();
    assert ps[0].number == NatToString(1);
    RenderDetected(ps);
    Transcript.StripTwice(Render(ps));
  }
}
