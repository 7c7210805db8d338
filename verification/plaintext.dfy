/**
 * `parse_plain_text` (backend/transcript_parser.py): one entry per non-blank
 * line, with a running speaker and a running clock.
 *
 * Each stripped line is tried against two regular expressions, written out
 * here as recognisers:
 *   - `\[?(\d{1,2}:\d{2}(?::\d{2})?)\]?\s*([^:]+):\s*(.*)`, a stamped line.
 *     The clock part is deterministic (taking one digit where two are present
 *     would leave a digit where ':' is needed, and dropping an optional part
 *     would leave ':' where group 2 must start). Group 2 then runs from the end
 *     of the clock (or past a ']' there) to the first ':'; when the text
 *     between is empty the engine backs off the ']' (group 2 is then "]") or
 *     one whitespace character (group 2 then strips to ""), and fails when
 *     neither exists.
 *   - `([^:]+):\s*(.*)`, a labelled line: group 1 is everything before the
 *     first ':', which must not be the first character.
 * A line matching neither continues the current speaker.
 */
module PlainText {
  import opened Strings
  import opened Timestamps
  import opened Entries

  // ---------------------------------------------------------------------------
  // recognising a line

  predicate DigitAt(s: string, i: int) {
    0 <= i < |s| && IsDigit(s[i])
  }

  /** `\d{1,2}:\d{2}(?::\d{2})?` starting at `i`: the index just past it. */
  function ClockEnd(s: string, i: nat): (r: Option<nat>)
    ensures r.Some? ==> i < r.value <= |s|
  {
    if !DigitAt(s, i) then None
    else
      var d := if DigitAt(s, i + 1) then i + 2 else i + 1;
      if d + 3 <= |s| && s[d] == ':' && DigitAt(s, d + 1) && DigitAt(s, d + 2) then
        var e := d + 3;
        if e + 3 <= |s| && s[e] == ':' && DigitAt(s, e + 1) && DigitAt(s, e + 2) then Some(e + 3)
        else Some(e)
      else None
  }

  /** `g` is `D:DD`, `DD:DD`, `D:DD:DD` or `DD:DD:DD`, with `k` digits before the first ':'. */
  predicate ClockShape(g: string, k: nat) {
    && (k == 1 || k == 2)
    && (|g| == k + 3 || |g| == k + 6)
    && forall j :: 0 <= j < |g| ==> if j == k || j == k + 3 then g[j] == ':' else IsDigit(g[j])
  }

  lemma ClockSlice(s: string, i: nat, p: nat)
    requires ClockEnd(s, i) == Some(p)
    ensures ClockShape(s[i..p], (if DigitAt(s, i + 1) then 2 else 1))
  {
  }

  /** A clock of either shape reads as a timestamp. */
  lemma ClockShapeParses(g: string, k: nat)
    requires ClockShape(g, k)
    ensures ParseTimestamp(g).Some?
  {
    var a, b := g[..k], g[k + 1..k + 3];
    assert AllDigits(a) && AllDigits(b);
    if |g| == k + 3 {
      assert g == a + ":" + b;
      MinutesClock(a, b);
    } else {
      var c := g[k + 4..];
      assert AllDigits(c);
      assert g == a + ":" + b + ":" + c;
      HoursClock(a, b, c);
    }
  }

  lemma MinutesClock(a: string, b: string)
    requires |a| > 0 && |b| > 0 && AllDigits(a) && AllDigits(b)
    ensures ParseTimestamp(a + ":" + b).Some?
  {
    FloatOfDigits(a);
    FloatOfDigits(b);
    ParseTwoFields(a, b, DigitsValue(a) as real, DigitsValue(b) as real);
  }

  lemma HoursClock(a: string, b: string, c: string)
    requires |a| > 0 && |b| > 0 && |c| > 0 && AllDigits(a) && AllDigits(b) && AllDigits(c)
    ensures ParseTimestamp(a + ":" + b + ":" + c).Some?
  {
    FloatOfDigits(a);
    FloatOfDigits(b);
    FloatOfDigits(c);
    ParseThreeFields(a, b, c, DigitsValue(a) as real, DigitsValue(b) as real, DigitsValue(c) as real);
  }

  /** The seconds a recognised clock denotes, read the way the parser reads it. */
  function ClockSeconds(s: string, i: nat, p: nat): (r: real)
    requires ClockEnd(s, i) == Some(p)
    ensures ParseTimestamp(s[i..p]).Some? && ParseTimestamp(s[i..p]).value == r
  {
    ClockSlice(s, i, p);
    ClockShapeParses(s[i..p], if DigitAt(s, i + 1) then 2 else 1);
    ParseTimestamp(s[i..p]).value
  }

  /** What a stripped, non-blank line says. */
  datatype Line =
    | Blank
    | Stamped(time: real, speaker: string, text: string)
    | Labelled(speaker: string, text: string)
    | Continued(text: string)

  /** The text a line carries has been stripped. */
  predicate TextTrimmed(l: Line) {
    !l.Blank? ==> Trimmed(l.text)
  }

  /**
   * Where group 2 of the stamped pattern lies once the clock ends at `p`: from
   * `q` up to the first ':' at `c`.
   */
  function SpeakerSpan(s: string, p: nat): (r: Option<(nat, nat)>)
    requires p <= |s|
    ensures r.Some? ==> p <= r.value.0 < r.value.1 < |s|
  {
    if p < |s| && s[p] == ']' then
      var c := CharIndex(s, ':', p + 1);
      if c == |s| then None
      else if c > p + 1 then Some((p + 1, c))
      else Some((p, c))
    else
      var c := CharIndex(s, ':', p);
      if c == |s| || c == p then None
      else Some((p, c))
  }

  /** The stamped-line pattern on a stripped line. */
  function MatchStamped(s: string): (r: Option<Line>)
    ensures r.Some? ==> r.value.Stamped? && TextTrimmed(r.value)
  {
    var i := if |s| > 0 && s[0] == '[' then 1 else 0;
    match ClockEnd(s, i)
    case None => None
    case Some(p) =>
      match SpeakerSpan(s, p)
      case None => None
      case Some((q, c)) =>
        StripTrimmed(s[c + 1..]);
        Some(Stamped(ClockSeconds(s, i, p), Strip(s[q..c]), Strip(s[c + 1..])))
  }

  /** The labelled-line pattern: a non-empty run before the first ':'. */
  function MatchLabelled(s: string): (r: Option<Line>)
    ensures r.Some? ==> r.value.Labelled? && TextTrimmed(r.value)
  {
    var c := CharIndex(s, ':', 0);
    if c == |s| || c == 0 then None
    else
      StripTrimmed(s[c + 1..]);
      Some(Labelled(Strip(s[..c]), Strip(s[c + 1..])))
  }

  /** How `parse_plain_text` reads one line of the input. */
  function Classify(raw: string): (r: Line)
    ensures r.Blank? <==> Strip(raw) == ""
    ensures TextTrimmed(r)
  {
    var s := Strip(raw);
    StripTrimmed(raw);
    if s == "" then Blank
    else
      match MatchStamped(s)
      case Some(l) => l
      case None =>
        match MatchLabelled(s)
        case Some(l) => l
        case None => Continued(s)
  }

  // ---------------------------------------------------------------------------
  // the running state

  /** The speaker and clock carried from line to line. */
  datatype Cursor = Cursor(speaker: string, time: real)

  const Start := Cursor("Unknown", 0.0)

  /** Speaking time estimated at 150 words a minute. */
  function Duration(text: string): (d: real)
    ensures d >= 0.0
  {
    (WordCount(text) as real / 150.0) * 60.0
  }

  /**
   * The rate is 0.4 s a word: a single word lasts 0.4 s, and two texts joined
   * by a space last as long as the two together.
   */
  lemma DurationRate(a: string, b: string)
    ensures |a| > 0 && (forall i :: 0 <= i < |a| ==> !IsSpace(a[i])) ==> Duration(a) == 0.4
    ensures Duration(a + " " + b) == Duration(a) + Duration(b)
  {
    WordCountOne(a);
    WordCountJoin(a, b);
  }

  /** Emit an entry for non-empty text at the cursor's time and move the clock past it. */
  function Emit(c: Cursor, speaker: string, text: string): (Cursor, Option<Entry>)
  {
    if text == "" then (c, None)
    else
      var e := Entry(c.time, c.time + Duration(text), speaker, text);
      (Cursor(c.speaker, e.endTime), Some(e))
  }

  /** One iteration of the line loop. */
  function Step(cur: Cursor, line: Line): (Cursor, Option<Entry>)
  {
    match line
    case Blank => (cur, None)
    case Stamped(t, speaker, text) => Emit(Cursor(speaker, t), speaker, text)
    case Labelled(speaker, text) => Emit(Cursor(speaker, cur.time), speaker, text)
    case Continued(text) => Emit(cur, cur.speaker, text)
  }

  /** Every raw line, read. */
  function ClassifyAll(raw: seq<string>): (r: seq<Line>)
    ensures |r| == |raw|
    ensures forall i :: 0 <= i < |raw| ==> r[i] == Classify(raw[i])
  {
    seq(|raw|, i requires 0 <= i < |raw| => Classify(raw[i]))
  }

  /** The loop over the lines: the final cursor and the entries, in order. */
  function Run(cur: Cursor, lines: seq<Line>): (Cursor, seq<Entry>)
    decreases |lines|
  {
    if |lines| == 0 then (cur, [])
    else
      var (c1, e) := Step(cur, lines[0]);
      var (c2, es) := Run(c1, lines[1..]);
      (c2, (if e.Some? then [e.value] else []) + es)
  }

  /** `parse_plain_text` */
  function ParsePlainText(content: string): seq<Entry>
  {
    Run(Start, ClassifyAll(Split(Strip(content), "\n"))).1
  }

  // ---------------------------------------------------------------------------
  // properties

  /** The timing every plain-text entry has: non-empty, stripped text and a window of its estimated length. */
  predicate WellTimed(e: Entry) {
    e.text != "" && Trimmed(e.text) && e.endTime == e.startTime + Duration(e.text)
  }

  /** Every plain-text entry has non-empty stripped text and lasts its estimated speaking time. */
  lemma PlainTextWellTimed(content: string)
    ensures forall i :: 0 <= i < |ParsePlainText(content)| ==> WellTimed(ParsePlainText(content)[i])
  {
    RunWellTimed(Start, ClassifyAll(Split(Strip(content), "\n")));
  }

  /** Every entry of the loop is well timed. */
  lemma {:induction false} RunWellTimed(cur: Cursor, lines: seq<Line>)
    requires forall i :: 0 <= i < |lines| ==> TextTrimmed(lines[i])
    ensures forall i :: 0 <= i < |Run(cur, lines).1| ==> WellTimed(Run(cur, lines).1[i])
    decreases |lines|
  {
    if |lines| > 0 {
      var (c1, e) := Step(cur, lines[0]);
      RunWellTimed(c1, lines[1..]);
    }
  }

  /** `[clock]name: text` reads as a stamped line: the clock's time, the stripped name and text. */
  lemma StampedLine(g: string, k: nat, name: string, text: string)
    requires ClockShape(g, k) && |name| > 0 && ':' !in name && Trimmed(text)
    ensures ParseTimestamp(g).Some?
    ensures Classify("[" + g + "]" + name + ":" + text) == Stamped(ParseTimestamp(g).value, Strip(name), text)
  {
    var rest := name + ":" + text;
    var l := "[" + g + "]" + name + ":" + text;
    assert l == "[" + g + ("]" + rest);
    StampedLineAt(l, g, k, rest, name, text);
  }

  lemma StampedLineAt(l: string, g: string, k: nat, rest: string, name: string, text: string)
    requires ClockShape(g, k) && |name| > 0 && ':' !in name && Trimmed(text)
    requires rest == name + ":" + text && l == "[" + g + ("]" + rest)
    ensures ParseTimestamp(g).Some?
    ensures Classify(l) == Stamped(ParseTimestamp(g).value, Strip(name), text)
  {
    var p := 1 + |g|;
    var c := p + 1 + |name|;
    BracketLineStripped(l, g, rest);
    StripTrimmed(text);
    ClockAfterBracket(g, k, "]" + rest);
    BracketClockParses(l, g, k, rest);
    SpanAfterBracket(l, g, rest, name, text);
    StampedMatch(l, p, c, ParseTimestamp(g).value, name, text);
  }

  lemma BracketLineStripped(l: string, g: string, rest: string)
    requires |rest| > 0 && !IsSpace(rest[|rest| - 1]) && l == "[" + g + ("]" + rest)
    ensures Strip(l) == l
  {
    assert l[0] == '[' && l[|l| - 1] == rest[|rest| - 1];
    StripTrimmed(l);
  }

  lemma BracketClockParses(l: string, g: string, k: nat, rest: string)
    requires ClockShape(g, k) && l == "[" + g + ("]" + rest)
    ensures ParseTimestamp(l[1..1 + |g|]).Some? && ParseTimestamp(l[1..1 + |g|]).value == ParseTimestamp(g).value
  {
    assert l[1..1 + |g|] == g;
    ClockShapeParses(g, k);
  }

  lemma SpanAfterBracket(l: string, g: string, rest: string, name: string, text: string)
    requires |name| > 0 && ':' !in name && rest == name + ":" + text && l == "[" + g + ("]" + rest)
    ensures SpeakerSpan(l, 1 + |g|) == Some((2 + |g|, 2 + |g| + |name|))
    ensures l[2 + |g|..2 + |g| + |name|] == name && l[3 + |g| + |name|..] == text
  {
    var p := 1 + |g|;
    assert l[p] == ']';
    assert l[p + 1..] == rest;
    NameThenColon(l, p + 1, name, text);
  }

  /** The clock right after an opening bracket ends where the clock string ends. */
  lemma ClockAfterBracket(g: string, k: nat, rest: string)
    requires ClockShape(g, k) && |rest| > 0 && rest[0] == ']'
    ensures ClockEnd("[" + g + rest, 1) == Some(1 + |g|)
  {
    var l := "[" + g + rest;
    assert forall j :: 0 <= j < |g| ==> l[1 + j] == g[j];
    assert l[1 + |g|] == ']';
    assert DigitAt(l, 2) <==> k == 2;
  }

  /** In `l`, from `i` on, `name + ":" + text` puts the first ':' right after the name. */
  lemma NameThenColon(l: string, i: nat, name: string, text: string)
    requires i <= |l| && l[i..] == name + ":" + text && ':' !in name
    ensures CharIndex(l, ':', i) == i + |name|
    ensures l[i..i + |name|] == name && l[i + |name| + 1..] == text
  {
    var c := i + |name|;
    assert l[c] == (name + ":" + text)[|name|];
    forall j | i <= j < c
      ensures l[j] != ':'
    {
      assert l[j] == l[i..][j - i] == name[j - i];
    }
    CharIndexFrom(l, ':', i, c);
    assert l[i..c] == l[i..][..|name|];
    assert l[c + 1..] == l[i..][|name| + 1..];
  }

  /** The stamped pattern on a bracketed clock followed by a non-empty run up to ':'. */
  lemma StampedMatch(l: string, p: nat, c: nat, t: real, name: string, text: string)
    requires |l| > 0 && l[0] == '[' && ClockEnd(l, 1) == Some(p)
    requires SpeakerSpan(l, p) == Some((p + 1, c))
    requires ParseTimestamp(l[1..p]).Some? && ParseTimestamp(l[1..p]).value == t
    requires l[p + 1..c] == name && l[c + 1..] == text
    requires Strip(l) == l
    ensures Classify(l) == Stamped(t, Strip(name), Strip(text))
  {
    assert MatchStamped(l) == Some(Stamped(t, Strip(name), Strip(text)));
  }

  /** `name: text`, where the name cannot start a clock, reads as a labelled line. */
  lemma LabelledLine(name: string, text: string)
    requires |name| > 0 && ':' !in name && !IsSpace(name[0]) && Trimmed(text)
    requires !IsDigit(name[0]) && (name[0] == '[' && |name| > 1 ==> !IsDigit(name[1]))
    ensures Classify(name + ":" + text) == Labelled(Strip(name), text)
  {
    var l := name + ":" + text;
    var c := |name|;
    assert l[c] == ':' && l[0] == name[0];
    assert |name| > 1 ==> l[1] == name[1];
    assert Trimmed(l);
    StripTrimmed(l);
    StripTrimmed(text);
    assert l[..c] == name;
    CharIndexAt(l, ':', c);
    assert l[c + 1..] == text;
  }

  /** A blank line changes nothing and emits nothing. */
  lemma BlankLine(cur: Cursor, raw: string)
    requires Strip(raw) == ""
    ensures Step(cur, Classify(raw)) == (cur, None)
  {
  }

  /** A label with no text after it emits nothing but still becomes the current speaker. */
  lemma SilentLabel(cur: Cursor, speaker: string)
    ensures Step(cur, Labelled(speaker, "")) == (Cursor(speaker, cur.time), None)
  {
  }

  /** A stamped line sets the clock to its stamp whatever came before; its entry starts there. */
  lemma StampedResets(cur: Cursor, other: Cursor, t: real, speaker: string, text: string)
    ensures Step(cur, Stamped(t, speaker, text)) == Step(other, Stamped(t, speaker, text))
    ensures Step(cur, Stamped(t, speaker, text)).0.speaker == speaker
    ensures text != "" ==> Step(cur, Stamped(t, speaker, text)).1 == Some(Entry(t, t + Duration(text), speaker, text))
    ensures text == "" ==> Step(cur, Stamped(t, speaker, text)).0.time == t
  {
  }

  /** An untimed line's entry starts at the running time and the clock moves to its end. */
  lemma UntimedStep(cur: Cursor, line: Line)
    requires !line.Stamped?
    ensures var (c, e) := Step(cur, line);
      && (e.Some? ==> e.value.startTime == cur.time && c.time == e.value.endTime)
      && (e.None? ==> c.time == cur.time)
  {
  }

  /** A line with no ':' is blank or continues the current speaker. */
  lemma ColonFreeLine(raw: string)
    requires ':' !in raw && Strip(raw) != ""
    ensures Classify(raw) == Continued(Strip(raw))
  {
    var s := Strip(raw);
    assert ':' !in s by {
      assert forall k :: 0 <= k < |s| ==> s[k] in raw;
    }
    CharIndexAbsent(s, ':', 0);
  }

  /** The running entries are chained: each starts where the previous one ended. */
  predicate Chained(t0: real, es: seq<Entry>) {
    && (|es| > 0 ==> es[0].startTime == t0)
    && forall k :: 0 <= k < |es| - 1 ==> es[k + 1].startTime == es[k].endTime
  }

  /** The clock after a run of entries chained from `t0`. */
  function EndOf(t0: real, es: seq<Entry>): real {
    if |es| == 0 then t0 else es[|es| - 1].endTime
  }

  /** Without stamped lines, every entry starts exactly where the previous one ended. */
  lemma {:induction false} UntimedChain(cur: Cursor, lines: seq<Line>)
    requires forall i :: 0 <= i < |lines| ==> !lines[i].Stamped?
    ensures Chained(cur.time, Run(cur, lines).1)
    ensures Run(cur, lines).0.time == EndOf(cur.time, Run(cur, lines).1)
    decreases |lines|
  {
    if |lines| > 0 {
      var (c1, e) := Step(cur, lines[0]);
      UntimedStep(cur, lines[0]);
      UntimedChain(c1, lines[1..]);
      var rest := Run(c1, lines[1..]).1;
      var out := (if e.Some? then [e.value] else []) + rest;
      assert Run(cur, lines).1 == out;
      if e.Some? {
        assert out[0] == e.value;
        forall k | 0 <= k < |out| - 1
          ensures out[k + 1].startTime == out[k].endTime
        {
          if k > 0 {
            assert out[k + 1] == rest[k] && out[k] == rest[k - 1];
          }
        }
      }
    }
  }

  /** Without ':' anywhere, every entry is "Unknown"'s and the entries run back to back from 0. */
  lemma ColonFreeText(content: string)
    requires ':' !in content
    ensures Chained(0.0, ParsePlainText(content))
    ensures forall i :: 0 <= i < |ParsePlainText(content)| ==> ParsePlainText(content)[i].speaker == "Unknown"
  {
    var raw := Split(Strip(content), "\n");
    ColonFreeLines(content, raw);
    var lines := ClassifyAll(raw);
    forall i | 0 <= i < |lines|
      ensures !lines[i].Stamped? && !lines[i].Labelled?
    {
      if Strip(raw[i]) != "" {
        ColonFreeLine(raw[i]);
      }
    }
    UntimedChain(Start, lines);
    UnknownThroughout(Start, lines);
  }

  lemma ColonFreeLines(content: string, lines: seq<string>)
    requires ':' !in content && lines == Split(Strip(content), "\n")
    ensures forall i :: 0 <= i < |lines| ==> ':' !in lines[i]
  {
    var s := Strip(content);
    assert ':' !in s by {
      assert forall k :: 0 <= k < |s| ==> s[k] in content;
    }
    SplitPartsAvoidOther(s, "\n", ':');
  }

  /** Lines that neither carry a stamp nor a label keep the speaker at "Unknown". */
  lemma {:induction false} UnknownThroughout(cur: Cursor, lines: seq<Line>)
    requires cur.speaker == "Unknown"
    requires forall i :: 0 <= i < |lines| ==> !lines[i].Stamped? && !lines[i].Labelled?
    ensures forall i :: 0 <= i < |Run(cur, lines).1| ==> Run(cur, lines).1[i].speaker == "Unknown"
    decreases |lines|
  {
    if |lines| > 0 {
      var (c1, e) := Step(cur, lines[0]);
      UnknownThroughout(c1, lines[1..]);
    }
  }

  /** The loop composes: running over `a + b` is running over `a`, then over `b` from where it stopped. */
  lemma {:induction false} RunAppend(cur: Cursor, a: seq<Line>, b: seq<Line>)
    ensures Run(cur, a + b).0 == Run(Run(cur, a).0, b).0
    ensures Run(cur, a + b).1 == Run(cur, a).1 + Run(Run(cur, a).0, b).1
    decreases |a|
  {
    if |a| == 0 {
      assert a + b == b;
    } else {
      assert (a + b)[0] == a[0] && (a + b)[1..] == a[1..] + b;
      var (c1, e) := Step(cur, a[0]);
      RunAppend(c1, a[1..], b);
    }
  }
}
