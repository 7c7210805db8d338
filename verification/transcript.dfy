/**
 * `parse_vtt` and `parse_transcript` (backend/transcript_parser.py): drop a
 * WebVTT header, detect the format of a transcript and route it to one of the
 * three parsers.
 */
module Transcript {
  import opened Strings
  import opened Entries
  import Srt
  import PlainText

  const Header := "WEBVTT"

  // ---------------------------------------------------------------------------
  // WebVTT

  /**
   * `re.sub(r'^WEBVTT.*?\n\n', '', content, flags=re.DOTALL)`: anchored at the
   * start, the lazy `.*?` stops at the first blank line after the header word.
   */
  function DropVttHeader(content: string): (r: string)
    ensures |r| <= |content| && r == content[|content| - |r|..]
    ensures !StartsWith(content, Header) ==> r == content
  {
    if StartsWith(content, Header) then
      match FindFrom(content, "\n\n", |Header|)
      case Some(j) => content[j + 2..]
      case None => content
    else content
  }

  /** `parse_vtt` */
  function ParseVtt(content: string): seq<Entry>
  {
    Srt.ParseSrt(DropVttHeader(content))
  }

  /** The header is everything up to and including the first blank line. */
  lemma DropHeader(header: string, body: string)
    requires SepOnlyAtEnd(header, "\n\n")
    ensures DropVttHeader(Header + header + "\n\n" + body) == body
  {
    var c := Header + header + "\n\n" + body;
    var j := |Header| + |header|;
    assert StartsWith(c, Header) by {
      assert c[..|Header|] == Header;
    }
    assert OccursAt(c, "\n\n", j) by {
      assert c[j..j + 2] == "\n\n";
    }
    forall k | |Header| <= k < j
      ensures !OccursAt(c, "\n\n", k)
    {
      assert c[k..k + 2] == (header + "\n\n")[k - |Header|..k - |Header| + 2];
      assert !OccursAt(header + "\n\n", "\n\n", k - |Header|);
    }
    assert FindFrom(c, "\n\n", |Header|) == Some(j);
    assert c[j + 2..] == body;
  }

  /** A header with no blank line after it is left in place. */
  lemma HeaderWithoutBlankLine(content: string)
    requires StartsWith(content, Header)
    requires forall k :: |Header| <= k ==> !OccursAt(content, "\n\n", k)
    ensures DropVttHeader(content) == content
  {
  }

  // ---------------------------------------------------------------------------
  // format detection

  /** `\d+\n\d{2}:\d{2}:\d{2},\d{3}\s*-->` matches with its last number digit at `i`. */
  predicate CueAt(c: string, i: int) {
    && 0 <= i && i + 1 < |c| && IsDigit(c[i]) && c[i + 1] == '\n'
    && Srt.StampAt(c, i + 2)
    && var a := SkipSpaces(c, i + 14);
       a + 3 <= |c| && c[a] == '-' && c[a + 1] == '-' && c[a + 2] == '>'
  }

  /** `re.search` for the cue pattern succeeds. */
  predicate HasCue(c: string) {
    exists i :: 0 <= i < |c| && CueAt(c, i)
  }

  datatype Format = SrtFormat | VttFormat | TextFormat

  /** The auto-detection: a WEBVTT header first, then an SRT cue anywhere, else plain text. */
  function Detect(c: string): (f: Format)
    ensures f == VttFormat <==> StartsWith(c, Header)
    ensures f == SrtFormat <==> !StartsWith(c, Header) && HasCue(c)
  {
    if StartsWith(c, Header) then VttFormat
    else if HasCue(c) then SrtFormat
    else TextFormat
  }

  /** The format used: the hint when given ('srt', 'vtt', anything else is text), else detected. */
  function FormatOf(hint: Option<string>, c: string): (f: Format)
    ensures hint.Some? ==> (f == SrtFormat <==> hint.value == "srt")
    ensures hint.Some? ==> (f == VttFormat <==> hint.value == "vtt")
    ensures hint.None? ==> f == Detect(c)
  {
    match hint
    case None => Detect(c)
    case Some(h) => if h == "srt" then SrtFormat else if h == "vtt" then VttFormat else TextFormat
  }

  /** `parse_transcript` */
  function ParseTranscript(content: string, hint: Option<string>): (r: seq<Entry>)
  {
    var c := Strip(content);
    match FormatOf(hint, c)
    case SrtFormat => Srt.ParseSrt(c)
    case VttFormat => ParseVtt(c)
    case TextFormat => PlainText.ParsePlainText(c)
  }

  /** Without a header and without an arrow, transcripts are read as plain text. */
  lemma PlainRouting(content: string)
    requires !StartsWith(Strip(content), Header) && '>' !in content
    ensures ParseTranscript(content, None) == PlainText.ParsePlainText(Strip(content))
  {
    var c := Strip(content);
    assert '>' !in c by {
      assert forall k :: 0 <= k < |c| ==> c[k] in content;
    }
  }

  /** Stripping a stripped transcript changes nothing, so the parsers see the same text either way. */
  lemma StripTwice(content: string)
    ensures Strip(Strip(content)) == Strip(content)
  {
    StripTrimmed(content);
    StripTrimmed(Strip(content));
  }

  /** A WebVTT file parses as the SRT cues after its header. */
  lemma VttRouting(header: string, body: string)
    requires SepOnlyAtEnd(header, "\n\n")
    requires Trimmed(Header + header + "\n\n" + body)
    ensures ParseTranscript(Header + header + "\n\n" + body, None) == Srt.ParseSrt(body)
  {
    var c := Header + header + "\n\n" + body;
    StripTrimmed(c);
    assert StartsWith(c, Header) by {
      assert c[..|Header|] == Header;
    }
    DropHeader(header, body);
  }

  /** A hint overrides detection. */
  lemma HintRouting(content: string, hint: string)
    ensures hint == "srt" ==> ParseTranscript(content, Some(hint)) == Srt.ParseSrt(Strip(content))
    ensures hint == "vtt" ==> ParseTranscript(content, Some(hint)) == ParseVtt(Strip(content))
    ensures hint != "srt" && hint != "vtt" ==> ParseTranscript(content, Some(hint)) == PlainText.ParsePlainText(Strip(content))
  {
  }
}
