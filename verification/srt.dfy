/**
 * `parse_srt` (backend/transcript_parser.py): blank-line separated cue blocks,
 * each a number line, a `START --> END` line and one or more text lines.
 *
 * The two regular expressions the parser uses are written out as recognisers:
 *   - the cue line pattern `(\d{2}:\d{2}:\d{2},\d{3})\s*-->\s*(\d{2}:\d{2}:\d{2},\d{3})`
 *     searched for anywhere in the second line. Once a start position is
 *     fixed the match is deterministic: each `\s*` must run to the end of the
 *     whitespace, because the character that follows it ('-' or a digit) is
 *     never whitespace.
 *   - the speaker pattern `\[?([^\]]+?)\]?:\s*(.*)` matched at the start of
 *     the text. Group 1 grows lazily one character at a time; it stops at the
 *     first ':' (success), or at the first ']' (success only if a ':' follows
 *     straight after, since ']' cannot join the group). When the text starts
 *     with '[' the engine first tries with the bracket consumed, then without.
 */
module Srt {
  import opened Strings
  import opened Timestamps
  import opened Entries

  // ---------------------------------------------------------------------------
  // the cue line

  /** `\d{2}:\d{2}:\d{2},\d{3}` occupies `s[i..i + 12]`. */
  predicate StampAt(s: string, i: int) {
    && 0 <= i && i + 12 <= |s|
    && IsDigit(s[i]) && IsDigit(s[i + 1]) && s[i + 2] == ':'
    && IsDigit(s[i + 3]) && IsDigit(s[i + 4]) && s[i + 5] == ':'
    && IsDigit(s[i + 6]) && IsDigit(s[i + 7]) && s[i + 8] == ','
    && IsDigit(s[i + 9]) && IsDigit(s[i + 10]) && IsDigit(s[i + 11])
  }

  /** The time an `HH:MM:SS,mmm` stamp denotes, digit by digit. */
  function StampValue(g: string): real
    requires StampAt(g, 0)
  {
    (10.0 * DigitAt(g, 0) + DigitAt(g, 1)) * 3600.0 + (10.0 * DigitAt(g, 3) + DigitAt(g, 4)) * 60.0
    + (10.0 * DigitAt(g, 6) + DigitAt(g, 7))
    + (100.0 * DigitAt(g, 9) + 10.0 * DigitAt(g, 10) + DigitAt(g, 11)) / 1000.0
  }

  /** The value of the digit at `k`. */
  function DigitAt(g: string, k: int): real
    requires 0 <= k < |g| && IsDigit(g[k])
  {
    DigitVal(g[k]) as real
  }

  /** Where the second stamp starts when `\s*-->\s*` and a stamp follow the stamp at `p`. */
  function SecondStamp(s: string, p: nat): Option<nat>
    requires StampAt(s, p)
  {
    var a := SkipSpaces(s, p + 12);
    if a + 3 <= |s| && s[a] == '-' && s[a + 1] == '-' && s[a + 2] == '>' then
      var q := SkipSpaces(s, a + 3);
      if StampAt(s, q) then Some(q) else None
    else None
  }

  /** The cue line pattern matches starting at `p`. */
  predicate PairAt(s: string, p: int) {
    p >= 0 && StampAt(s, p) && SecondStamp(s, p).Some?
  }

  /** `re.search` for the cue line pattern: the leftmost start at or after `p`. */
  function FindPair(s: string, p: nat): (r: Option<nat>)
    ensures r.Some? ==> p <= r.value && PairAt(s, r.value)
    ensures r.Some? ==> forall k :: p <= k < r.value ==> !PairAt(s, k)
    ensures r.None? ==> forall k :: p <= k ==> !PairAt(s, k)
    decreases |s| - p
  {
    if p + 12 > |s| then None
    else if PairAt(s, p) then Some(p)
    else FindPair(s, p + 1)
  }

  lemma TwoDigits(x: string)
    requires |x| == 2 && IsDigit(x[0]) && IsDigit(x[1])
    ensures AllDigits(x) && DigitsValue(x) == 10 * DigitVal(x[0]) + DigitVal(x[1])
  {
    var x0 := x[..1];
    assert x0[..0] == [] && x0[0] == x[0] && x[..|x| - 1] == x0;
    assert DigitsValue(x0) == DigitVal(x[0]);
  }

  lemma ThreeDigits(x: string)
    requires |x| == 3 && IsDigit(x[0]) && IsDigit(x[1]) && IsDigit(x[2])
    ensures AllDigits(x) && DigitsValue(x) == 100 * DigitVal(x[0]) + 10 * DigitVal(x[1]) + DigitVal(x[2])
  {
    TwoDigits(x[..2]);
    assert x[..2][0] == x[0] && x[..2][1] == x[1];
  }

  /** A stamp reads back, through `parse_timestamp`, as the time it spells. */
  lemma StampParses(g: string)
    requires |g| == 12 && StampAt(g, 0)
    ensures ParseTimestamp(g).Some? && ParseTimestamp(g).value == StampValue(g)
  {
    var h, m, sec, ms := g[..2], g[3..5], g[6..8], g[9..];
    TwoDigits(h);
    TwoDigits(m);
    TwoDigits(sec);
    ThreeDigits(ms);
    FractionOfThree(ms);
    FloatOfDigits(h);
    FloatOfDigits(m);
    var x := DigitsValue(sec) as real + FractionValue(ms);
    FloatOfFraction(sec, ms, x);
    var c := sec + "," + ms;
    assert g == h + ":" + m + ":" + c;
    ParseThreeFields(h, m, c, DigitsValue(h) as real, DigitsValue(m) as real, x);
  }

  lemma StampSlice(s: string, p: nat)
    requires StampAt(s, p)
    ensures StampAt(s[p..p + 12], 0)
  {
  }

  /** The seconds denoted by the stamp at `p`, read the way the parser reads it. */
  function StampSeconds(s: string, p: nat): (r: real)
    requires StampAt(s, p)
    ensures r == StampValue(s[p..p + 12])
  {
    StampSlice(s, p);
    StampParses(s[p..p + 12]);
    ParseTimestamp(s[p..p + 12]).value
  }

  // ---------------------------------------------------------------------------
  // the speaker label

  /** The first index at or after `i` holding ':' or ']', or `|t|`. */
  function StopIndex(t: string, i: nat): (r: nat)
    requires i <= |t|
    ensures i <= r <= |t|
    ensures r < |t| ==> t[r] == ':' || t[r] == ']'
    ensures forall k :: i <= k < r ==> t[k] != ':' && t[k] != ']'
    decreases |t| - i
  {
    if i == |t| || t[i] == ':' || t[i] == ']' then i else StopIndex(t, i + 1)
  }

  /** Group 1 and the text after the label's ':'. */
  datatype Label = Label(name: string, rest: string)

  /** The speaker pattern with group 1 starting at `p`. */
  function LabelFrom(t: string, p: nat): Option<Label>
  {
    if p >= |t| || t[p] == ']' then None
    else
      var j := StopIndex(t, p + 1);
      if j == |t| then None
      else if t[j] == ':' then Some(Label(t[p..j], t[j + 1..]))
      else if j + 1 < |t| && t[j + 1] == ':' then Some(Label(t[p..j], t[j + 2..]))
      else None
  }

  /** `re.match` of the speaker pattern: the optional '[' is tried taken first. */
  function MatchLabel(t: string): Option<Label>
  {
    if |t| > 0 && t[0] == '[' && LabelFrom(t, 1).Some? then LabelFrom(t, 1) else LabelFrom(t, 0)
  }

  /** Speaker and stripped text of a cue; "Unknown" and the whole stripped text without a label. */
  function SplitSpeaker(t: string): (string, string)
    requires '\n' !in t
  {
    match MatchLabel(t)
    case Some(l) => (l.name, Strip(l.rest))
    case None => ("Unknown", Strip(t))
  }

  /** Text with no ':' has no label: the speaker is "Unknown" and the text is kept, stripped. */
  lemma NoColonUnknown(t: string)
    requires '\n' !in t && ':' !in t
    ensures SplitSpeaker(t) == ("Unknown", Strip(t))
  {
    NoColonNoLabel(t, 0);
    NoColonNoLabel(t, 1);
  }

  lemma NoColonNoLabel(t: string, p: nat)
    requires ':' !in t
    ensures LabelFrom(t, p).None?
  {
    if p < |t| && t[p] != ']' {
      var j := StopIndex(t, p + 1);
      if j + 1 < |t| {
        assert t[j + 1] in t;
      }
    }
  }

  /** `Name: text` with a plain name gives that name and the stripped text. */
  lemma PlainLabel(name: string, rest: string)
    requires |name| > 0 && name[0] != '[' && ':' !in name && ']' !in name && '\n' !in name + rest
    ensures SplitSpeaker(name + ":" + rest) == (name, Strip(rest))
  {
    var t := name + ":" + rest;
    var j := |name|;
    assert t[0] == name[0] && t[j] == ':';
    forall k | 1 <= k < j
      ensures t[k] != ':' && t[k] != ']'
    {
      assert t[k] == name[k];
    }
    StopAt(t, 1, j);
    assert t[..j] == name && t[j + 1..] == rest;
    ColonLabel(t, 0, j, name, rest);
  }

  /** `[Name]: text` gives the name inside the brackets and the stripped text. */
  lemma BracketLabel(name: string, rest: string)
    requires |name| > 0 && ':' !in name && ']' !in name && '\n' !in name + rest
    ensures SplitSpeaker("[" + name + "]:" + rest) == (name, Strip(rest))
  {
    var t := "[" + name + "]:" + rest;
    var j := |name| + 1;
    assert t[0] == '[' && t[1] == name[0] && t[j] == ']' && t[j + 1] == ':';
    forall k | 2 <= k < j
      ensures t[k] != ':' && t[k] != ']'
    {
      assert t[k] == name[k - 1];
    }
    StopAt(t, 2, j);
    assert t[1..j] == name && t[j + 2..] == rest;
    BracketedLabel(t, 1, j, name, rest);
  }

  /** Group 1 runs from `p` to a ':' at `j`. */
  lemma ColonLabel(t: string, p: nat, j: nat, name: string, rest: string)
    requires p < j < |t| && t[p] != ']' && StopIndex(t, p + 1) == j && t[j] == ':'
    requires t[p..j] == name && t[j + 1..] == rest
    ensures LabelFrom(t, p) == Some(Label(name, rest))
  {
  }

  /** Group 1 runs from `p` to a ']' at `j` that a ':' follows. */
  lemma BracketedLabel(t: string, p: nat, j: nat, name: string, rest: string)
    requires p < j && j + 1 < |t| && t[p] != ']' && StopIndex(t, p + 1) == j && t[j] == ']' && t[j + 1] == ':'
    requires t[p..j] == name && t[j + 2..] == rest
    ensures LabelFrom(t, p) == Some(Label(name, rest))
  {
  }

  /** The scan for ':' or ']' stops at `j` when nothing before it qualifies. */
  lemma StopAt(t: string, i: nat, j: nat)
    requires i <= j < |t| && (t[j] == ':' || t[j] == ']')
    requires forall k :: i <= k < j ==> t[k] != ':' && t[k] != ']'
    ensures StopIndex(t, i) == j
    decreases j - i
  {
    if i < j {
      StopAt(t, i + 1, j);
    }
  }

  // ---------------------------------------------------------------------------
  // blocks

  /** The entry one block yields, or `None` when the block is skipped. */
  function BlockEntry(block: string): (r: Option<Entry>)
    ensures var lines := Split(Strip(block), "\n");
      r.Some? <==> |lines| >= 3 && exists p :: PairAt(lines[1], p)
  {
    var lines := Split(Strip(block), "\n");
    if |lines| < 3 then None
    else
      var line := lines[1];
      match FindPair(line, 0)
      case None => None
      case Some(p) =>
        var q := SecondStamp(line, p).value;
        var text := Join(lines[2..], " ");
        SplitPartsAvoid(Strip(block), '\n');
        JoinAvoids(lines[2..], " ", '\n');
        var (speaker, said) := SplitSpeaker(text);
        Some(Entry(StampSeconds(line, p), StampSeconds(line, q), speaker, said))
  }

  /** The entries of a list of blocks: skipped blocks drop out, the rest keep their order. */
  function BlockEntries(blocks: seq<string>): (r: seq<Entry>)
    ensures |r| <= |blocks|
  {
    if |blocks| == 0 then []
    else
      match BlockEntry(blocks[0])
      case None => BlockEntries(blocks[1..])
      case Some(e) => [e] + BlockEntries(blocks[1..])
  }

  /** `parse_srt` */
  function ParseSrt(content: string): seq<Entry>
  {
    BlockEntries(Split(Strip(content), "\n\n"))
  }

  /** Parsing blocks distributes over concatenation: entries keep the order of their blocks. */
  lemma {:induction false} BlockEntriesAppend(a: seq<string>, b: seq<string>)
    ensures BlockEntries(a + b) == BlockEntries(a) + BlockEntries(b)
    decreases |a|
  {
    if |a| == 0 {
      assert a + b == b;
    } else {
      assert (a + b)[1..] == a[1..] + b;
      BlockEntriesAppend(a[1..], b);
    }
  }

  /** One block gives one entry or none. */
  lemma BlockEntriesOne(b: string)
    ensures BlockEntries([b]) == if BlockEntry(b).Some? then [BlockEntry(b).value] else []
  {
    assert [b][1..] == [];
  }
}
