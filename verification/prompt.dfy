/**
 * `create_analysis_prompt` (backend/podcast_analyzer.py): one `[MM:SS]
 * speaker: text` line per transcript entry, the optional guest, topic and tone
 * lines, and the fixed instructions around them.
 */
module Prompt {
  import opened Strings
  import opened RealArith
  import opened Entries

  // ---------------------------------------------------------------------------
  // lines

  /** The lines, each followed by a newline. */
  function Lines(ls: seq<string>): string {
    if |ls| == 0 then "" else ls[0] + "\n" + Lines(ls[1..])
  }

  /** Cutting the written lines at newlines gives them back, and an empty string after the last. */
  lemma {:induction false} SplitLines(ls: seq<string>)
    requires forall k :: 0 <= k < |ls| ==> '\n' !in ls[k]
    ensures Split(Lines(ls), "\n") == ls + [""]
  {
    if |ls| == 0 {
      assert FindFrom("", "\n", 0) == None;
    } else {
      SplitLines(ls[1..]);
      SepOnlyAtEndChar(ls[0], '\n');
      SplitLeadingPart(ls[0], "\n", Lines(ls[1..]));
      assert ls == [ls[0]] + ls[1..];
    }
  }

  // ---------------------------------------------------------------------------
  // the transcript section

  /** `int(start // 60)` */
  function MinutesOf(start: real): int {
    FloorDiv(start, 60.0)
  }

  /** `int(start % 60)`: the floored remainder, so never negative. */
  function SecondsOf(start: real): (s: int)
    ensures 0 <= s < 60
  {
    Trunc(Mod(start, 60.0))
  }

  /** `f"{int(..):02d}"` of the minutes and the seconds. */
  function Stamp(start: real): string {
    "[" + ZeroPad(MinutesOf(start), 2) + ":" + ZeroPad(SecondsOf(start), 2) + "]"
  }

  /** One transcript line without its newline; the end time plays no part. */
  function Body(e: Entry): string {
    Stamp(e.startTime) + " " + e.speaker + ": " + e.text
  }

  function Bodies(es: seq<Entry>): (r: seq<string>)
    ensures |r| == |es|
    ensures forall k :: 0 <= k < |es| ==> r[k] == Body(es[k])
  {
    if |es| == 0 then [] else [Body(es[0])] + Bodies(es[1..])
  }

  /** `transcript_text`: the lines appended in entry order. */
  function TranscriptText(es: seq<Entry>): string {
    if |es| == 0 then "" else Body(es[0]) + "\n" + TranscriptText(es[1..])
  }

  /**
   * For a start at or after 0 the stamp holds at least two minute digits and
   * exactly two second digits below 60, and together they read back the whole
   * seconds of the start; the minutes do not wrap at the hour.
   */
  lemma StampReadsBack(start: real)
    requires start >= 0.0
    ensures MinutesOf(start) >= 0
    ensures var mm := ZeroPad(MinutesOf(start), 2); var ss := ZeroPad(SecondsOf(start), 2);
      && AllDigits(mm) && |mm| >= 2 && AllDigits(ss) && |ss| == 2
      && DigitsValue(ss) < 60 && DigitsValue(mm) * 60 + DigitsValue(ss) == start.Floor
  {
    var q := MinutesOf(start);
    var r := Mod(start, 60.0);
    assert start == q as real * 60.0 + r;
    assert q >= 0 by {
      assert start / 60.0 >= 0.0;
    }
    FloorShift(start, q * 60);
    assert start - (q * 60) as real == r;
    assert Pow10(2) == 100;
  }

  lemma DigitsNoNewline(p: string)
    requires AllDigits(p)
    ensures '\n' !in p
  {
    assert forall k :: 0 <= k < |p| ==> IsDigit(p[k]);
  }

  lemma PadNoNewline(n: int, width: nat)
    ensures '\n' !in ZeroPad(n, width)
  {
    if n < 0 {
      DigitsNoNewline(PadDigits(-n, width - 1));
    } else {
      DigitsNoNewline(PadDigits(n, width));
    }
  }

  lemma BodyNoNewline(e: Entry)
    requires '\n' !in e.speaker && '\n' !in e.text
    ensures '\n' !in Body(e)
  {
    PadNoNewline(MinutesOf(e.startTime), 2);
    PadNoNewline(SecondsOf(e.startTime), 2);
    assert '\n' !in Stamp(e.startTime);
  }

  /** The transcript section is the entries' lines in order, one per entry, none split. */
  lemma TranscriptLines(es: seq<Entry>)
    requires forall k :: 0 <= k < |es| ==> '\n' !in es[k].speaker && '\n' !in es[k].text
    ensures TranscriptText(es) == Lines(Bodies(es))
    ensures Split(TranscriptText(es), "\n") == Bodies(es) + [""]
  {
    TranscriptIsLines(es);
    var bs := Bodies(es);
    forall k | 0 <= k < |bs|
      ensures '\n' !in bs[k]
    {
      BodyNoNewline(es[k]);
    }
    SplitLines(bs);
  }

  lemma {:induction false} TranscriptIsLines(es: seq<Entry>)
    ensures TranscriptText(es) == Lines(Bodies(es))
  {
    if |es| > 0 {
      TranscriptIsLines(es[1..]);
      LinesCons(Body(es[0]), Bodies(es[1..]));
    }
  }

  // ---------------------------------------------------------------------------
  // metadata

  /** The three metadata keys the prompt reads; a missing key is `None`. */
  datatype Metadata = Metadata(guest: Option<string>, topic: Option<string>, tone: Option<string>)

  /** A value Python treats as true: present and not empty. */
  predicate Truthy(v: Option<string>) {
    v.Some? && |v.value| > 0
  }

  function Field(tag: string, v: Option<string>): string {
    if Truthy(v) then tag + v.value + "\n" else ""
  }

  /** `context`; `None` stands for a missing or empty metadata dict. */
  function Context(meta: Option<Metadata>): (r: string)
    ensures r == "" <==> meta.None? || (!Truthy(meta.value.guest) && !Truthy(meta.value.topic) && !Truthy(meta.value.tone))
  {
    match meta
    case None => ""
    case Some(m) => Field("Guest: ", m.guest) + Field("Topic: ", m.topic) + Field("Tone: ", m.tone)
  }

  /** The metadata lines present, in the prompt's order. */
  function Present(meta: Option<Metadata>): (r: seq<string>)
    ensures |r| <= 3
  {
    match meta
    case None => []
    case Some(m) =>
      (if Truthy(m.guest) then ["Guest: " + m.guest.value] else [])
      + (if Truthy(m.topic) then ["Topic: " + m.topic.value] else [])
      + (if Truthy(m.tone) then ["Tone: " + m.tone.value] else [])
  }

  lemma LinesCons(x: string, rest: seq<string>)
    ensures Lines([x] + rest) == x + "\n" + Lines(rest)
  {
    assert ([x] + rest)[1..] == rest;
  }

  lemma {:induction false} LinesAppend(a: seq<string>, b: seq<string>)
    ensures Lines(a + b) == Lines(a) + Lines(b)
  {
    if |a| == 0 {
      assert a + b == b;
    } else {
      var x, t := a[0], a[1..];
      LinesAppend(t, b);
      assert (a + b)[0] == x && (a + b)[1..] == t + b;
      var lt, lb := Lines(t), Lines(b);
      var u := x + "\n";
      assert Lines(a + b) == u + (lt + lb);
      assert Lines(a) == u + lt;
      Regroup(u, lt, lb);
    }
  }

  lemma Regroup(u: string, v: string, w: string)
    ensures u + (v + w) == (u + v) + w
  {
  }

  lemma LinesOne(s: string)
    ensures Lines([s]) == s + "\n"
  {
    assert [s][1..] == [];
  }

  lemma FieldLines(tag: string, v: Option<string>)
    ensures Field(tag, v) == Lines(if Truthy(v) then [tag + v.value] else [])
  {
    if Truthy(v) {
      LinesOne(tag + v.value);
    }
  }

  /**
   * The context is one line per truthy value, guest before topic before tone,
   * and nothing else; values without newlines read back as those lines.
   */
  lemma ContextLines(meta: Option<Metadata>)
    ensures Context(meta) == Lines(Present(meta))
    ensures meta.Some? && (forall k :: 0 <= k < |Present(meta)| ==> '\n' !in Present(meta)[k]) ==>
      Split(Context(meta), "\n") == Present(meta) + [""]
  {
    if meta.Some? {
      var m := meta.value;
      var g := if Truthy(m.guest) then ["Guest: " + m.guest.value] else [];
      var t := if Truthy(m.topic) then ["Topic: " + m.topic.value] else [];
      var n := if Truthy(m.tone) then ["Tone: " + m.tone.value] else [];
      FieldLines("Guest: ", m.guest);
      FieldLines("Topic: ", m.topic);
      FieldLines("Tone: ", m.tone);
      LinesAppend(g, t);
      LinesAppend(g + t, n);
      if forall k :: 0 <= k < |Present(meta)| ==> '\n' !in Present(meta)[k] {
        SplitLines(Present(meta));
      }
    }
  }

  // ---------------------------------------------------------------------------
  // the prompt

  const Opening := "You are a podcast content analyzer and viral clip strategist.\n    \n"

  const TranscriptHeading := "\n\n## TRANSCRIPT:\n"

  /** The instructions after the transcript; the ranges use an en dash (U+2013). */
  const Task := "\n\n---\n\n## YOUR TASK:\n\n"
    + "Analyze this podcast transcript through 6 stages and return a comprehensive structured response.\n\n"
    + "### STAGE 1: Semantic Chunking\n"
    + "Parse the transcript into coherent segments (30\U{2013}90 seconds each). Preserve complete thoughts.\n\n"
    + "### STAGE 2: Viral Potential Analysis\n"
    + "Evaluate viral potential (0.0\U{2013}1.0). Look for emotional peaks, quotability, and contrarian angles.\n\n"
    + "### STAGE 3: Clip Refinement\n"
    + "Select the top 3-5 chunks. Tighten intro/outro. Target 30-60s.\n\n"
    + "### STAGE 4: Platform Optimization\n"
    + "Generate hooks, captions (with emphasis), hashtags, and social copy.\n\n"
    + "### STAGE 5: Visual Treatment Plan\n"
    + "Design a visual system (beats, motion, style) for each clip.\n\n"
    + "### STAGE 6: Assembly Specification\n"
    + "Provide technical specs for automated editing.\n"

  /** Everything before the transcript section: it depends on the metadata alone. */
  function Head(meta: Option<Metadata>): string {
    Opening + Context(meta) + TranscriptHeading
  }

  /** The prompt's three sections around any task text. */
  function Compose(es: seq<Entry>, meta: Option<Metadata>, task: string): string {
    Head(meta) + TranscriptText(es) + task
  }

  /** `create_analysis_prompt` */
  function CreateAnalysisPrompt(es: seq<Entry>, meta: Option<Metadata>): string {
    Compose(es, meta, Task)
  }

  lemma Sections(h: string, t: string, k: string)
    ensures var p := h + t + k;
      p[..|h|] == h && p[|h|..|p| - |k|] == t && p[|p| - |k|..] == k
  {
  }

  /** The text between a head and a tail, when `p` starts with the one and ends with the other. */
  function Between(p: string, h: string, k: string): (r: Option<string>)
    ensures r.Some? ==> p == h + r.value + k
  {
    if |h| + |k| <= |p| && p[..|h|] == h && p[|p| - |k|..] == k then
      assert p == p[..|h|] + p[|h|..|p| - |k|] + p[|p| - |k|..];
      Some(p[|h|..|p| - |k|])
    else None
  }

  /**
   * The prompt carries exactly one line per entry, in entry order, between a
   * head that depends on the metadata alone and the task text, whatever that
   * text is; `CreateAnalysisPrompt(es, meta)` is `Compose(es, meta, Task)`.
   */
  lemma ComposedLines(es: seq<Entry>, meta: Option<Metadata>, task: string)
    requires forall k :: 0 <= k < |es| ==> '\n' !in es[k].speaker && '\n' !in es[k].text
    ensures var m := Between(Compose(es, meta, task), Head(meta), task);
      m.Some? && Split(m.value, "\n") == Bodies(es) + [""]
  {
    TranscriptLines(es);
    MiddleLines(Head(meta), TranscriptText(es), task);
  }

  /** Whatever sits between a head and a tail is found again between them. */
  lemma MiddleLines(h: string, t: string, k: string)
    ensures Between(h + t + k, h, k) == Some(t)
  {
    Sections(h, t, k);
  }
}
