# Clip backend, modelled in Dafny

A Dafny model of the pure core of a podcast-to-clips backend written in
Python. It covers five parts:

- **The transcript parser.** It turns SRT, WebVTT or plain text into entries
  of start time, end time, speaker and text. It auto-detects the format and
  can merge consecutive entries of one speaker.
- **The subtitle writer.** It numbers a clip's captions and shifts them by
  the clip start, after guessing whether their times are already relative to
  the clip. It writes them as SRT blocks with `HH:MM:SS,mmm` stamps.
- **The face tracker and the smart crop.**
  - Every n-th frame is sampled and the largest face box is taken as the
    speaker. Its clamped horizontal centre is recorded.
  - The sparse centres are interpolated to every frame and smoothed with a
    30-frame moving average.
  - The vertical renderer takes the median of that path and places a 9:16
    crop window around it.
- **The YouTube id extraction.** It covers `watch?v=`, `/shorts/` and
  `youtu.be` links, and the guard that refuses an empty id.
- **The analysis prompt.** It writes one `[MM:SS] speaker: text` line per
  transcript entry, the optional guest/topic/tone lines, and the fixed
  instructions.

## How Python is modelled

- Times and coordinates are Dafny `real`s: exact rationals, not floats.
- Python's floored `//` and `%` on floats are `RealArith.FloorDiv` and
  `RealArith.Mod`. `int()` is `RealArith.Trunc`, which truncates towards zero.
- A raised exception or a rejected input is an `Option` that is `None`. A
  dictionary key that may be missing is an `Option` field.
- Each regular expression is hand-coded as the match Python's backtracking
  engine finds:
  - the SRT cue pattern;
  - the SRT speaker pattern;
  - the two plain-text line patterns;
  - the WEBVTT header pattern;
  - the auto-detection pattern.
- `numpy.interp` is the recursive `CameraPath.Interp`. `numpy.convolve(...,
  mode='same')` with a 30-tap box kernel is `CameraPath.Smooth`, with the
  kernel centred as numpy centres it and zeros beyond the ends.
- `numpy.median` is the middle of the sorted values (`Render.Median`).
- `timedelta(seconds=x)` keeps `x` rounded to a whole microsecond, ties to
  even (`Timestamps.RoundMicros`, built on `RealArith.RoundHalfEven`).

Modules, in dependency order:

- `Strings`: options, strip, split, join, digits and zero padding.
- `RealArith`: floored division, remainder, truncation and half-even rounding.
- `Entries`: the entry record.
- `Timestamps`: `parse_timestamp` and `format_timestamp`.
- `Srt`: `parse_srt`.
- `PlainText`: `parse_plain_text`.
- `Transcript`: `parse_vtt` and `parse_transcript`.
- `Merge`: `merge_entries`.
- `Subtitles`: `generate_srt_content` and `hex_to_ffmpeg_color`.
- `RoundTrip`: writing then parsing SRT.
- `FaceTracker`: the sampling loop.
- `CameraPath`: `_smooth_camera_path`.
- `Render`: the timing, the crop centre and the crop window.
- `YouTube`: `extract_video_id` and its guard.
- `Prompt`: `create_analysis_prompt`.

## Model

| member | source | states |
|---|---|---|
| Timestamps.ClockFields | backend/transcript_parser.py:26-28 | The `//` and `%` field arithmetic that `format_timestamp` applies to the `timedelta`'s total seconds gives minutes and seconds in 0..59, fields that add up to the whole seconds of that time, and non-negative hours for a non-negative time |
| Timestamps.RoundMicrosClose | backend/transcript_parser.py:25 | The time the `timedelta` holds is the input rounded to a whole microsecond: within half a microsecond of it, and exactly the input for a whole number of seconds |
| Timestamps.FloatOfFraction | backend/transcript_parser.py:12-13 | A field written with a decimal comma (`12,345`) reads as the number with a decimal point, since the comma is replaced before `float` |
| Timestamps.ParseThreeFields | backend/transcript_parser.py:10-16 | Three colon-separated fields read as hours, minutes and seconds: h·3600 + m·60 + s |
| Timestamps.ParseTwoFields | backend/transcript_parser.py:10-18 | Two colon-separated fields read as minutes and seconds: m·60 + s |
| Timestamps.ParseOneField | backend/transcript_parser.py:10-20 | A single field with no colon reads as plain seconds |
| Timestamps.FormatThenParse | backend/transcript_parser.py:10-29 | Every stamp `format_timestamp` writes is parsed back by `parse_timestamp`, to the whole seconds (the floor) of the input after the `timedelta`'s microsecond rounding, negative inputs included |
| Timestamps.FormatRoundsFirst | backend/transcript_parser.py:23-29 | The microsecond rounding shows in the text: 59.9999999 s is written and read back as 60 s, and -0.0000001 s as 0 s |
| Timestamps.FormatThenParseWhole | backend/transcript_parser.py:10-29 | A whole number of seconds survives formatting and parsing unchanged |
| Srt.FindPair | backend/transcript_parser.py:43-45 | The search finds the first position of the line where two `HH:MM:SS,mmm` stamps joined by `-->` start, and reports none exactly when there is no such position |
| Srt.StampParses | backend/transcript_parser.py:43-48 | A stamp matched by the cue pattern is accepted by `parse_timestamp`, worth hours·3600 + minutes·60 + seconds + millis/1000 |
| Srt.StampSeconds | backend/transcript_parser.py:47-48 | The start and end times of a cue are the values of the 12-character stamps the pattern captured |
| Srt.NoColonUnknown | backend/transcript_parser.py:54-65 | Text without a colon has no speaker label: the speaker is `Unknown` and the text is kept, stripped |
| Srt.PlainLabel | backend/transcript_parser.py:54-65 | `name: text` gives speaker `name` and the stripped text after the colon |
| Srt.BracketLabel | backend/transcript_parser.py:54-65 | `[name]: text` gives speaker `name` without its brackets and the stripped text after the colon |
| Srt.BlockEntry | backend/transcript_parser.py:38-45 | A block yields an entry exactly when it has at least three lines and its second line holds a cue pair somewhere |
| Srt.BlockEntries | backend/transcript_parser.py:37-68 | Each block gives at most one entry, so there are never more entries than blocks |
| Srt.BlockEntriesAppend | backend/transcript_parser.py:37-68 | The entries of two runs of blocks are those of the first run followed by those of the second: blocks are read independently and in order |
| Srt.BlockEntriesOne | backend/transcript_parser.py:37-66 | A single block contributes its entry when it parses and nothing when it is skipped |
| PlainText.MatchStamped | backend/transcript_parser.py:92-100 | A line matching the timed pattern is read as a timed line whose speaker and text carry no surrounding whitespace |
| PlainText.MatchLabelled | backend/transcript_parser.py:93-104 | A line matching the label pattern is read as a labelled line with stripped speaker and text |
| PlainText.ClockSeconds | backend/transcript_parser.py:96-99 | Every clock the timed pattern captures (`M:SS`, `MM:SS`, `H:MM:SS`, `HH:MM:SS`) is accepted by `parse_timestamp`, and its value is the time the line sets |
| PlainText.Classify | backend/transcript_parser.py:86-108 | A line is skipped exactly when it is blank after stripping; every other reading has stripped speaker and text |
| PlainText.Duration | backend/transcript_parser.py:111-113 | The estimated speaking time is never negative |
| PlainText.DurationRate | backend/transcript_parser.py:111-113 | Speaking time is estimated at 0.4 s a word: one word lasts 0.4 s, and two texts joined by a space last as long as the two together |
| Strings.WordCountJoin | backend/transcript_parser.py:112 | `len(text.split())` adds up across a space: the words of `a + " " + b` are those of `a` and those of `b` |
| Strings.WordCountOne | backend/transcript_parser.py:112 | A non-empty run of non-space characters is one word for `split()`, and whitespace alone is none |
| PlainText.StampedLine | backend/transcript_parser.py:92-100 | `[clock]name: text` sets the time to the clock's value and the speaker to the stripped name, and keeps the text |
| PlainText.LabelledLine | backend/transcript_parser.py:93-104 | `name: text`, with a name not starting like a clock, sets the speaker and keeps the running time |
| PlainText.BlankLine | backend/transcript_parser.py:87-89 | A blank line changes neither the speaker nor the time and emits nothing |
| PlainText.SilentLabel | backend/transcript_parser.py:101-110 | A label with no text emits nothing but still becomes the current speaker |
| PlainText.StampedResets | backend/transcript_parser.py:95-122 | A timed line does not depend on the state before it: it sets speaker and time, and its entry, if any, starts at its clock and lasts the estimated time |
| PlainText.UntimedStep | backend/transcript_parser.py:101-122 | An untimed line's entry starts at the running time, and the clock moves to its end |
| PlainText.ColonFreeLine | backend/transcript_parser.py:105-108 | A non-blank line with no colon continues the current speaker with the stripped line as text |
| PlainText.UntimedChain | backend/transcript_parser.py:110-122 | Without timed lines, each entry starts where the previous one ended, and the clock ends where the last entry ends |
| PlainText.ColonFreeText | backend/transcript_parser.py:78-124 | A text with no colons parses to back-to-back entries from time 0, all by `Unknown` |
| PlainText.UnknownThroughout | backend/transcript_parser.py:83-108 | While the speaker is `Unknown` and no line names one, every entry is by `Unknown` |
| PlainText.PlainTextWellTimed | backend/transcript_parser.py:110-122 | Every plain-text entry has non-empty stripped text and ends exactly its estimated speaking time after it starts |
| PlainText.RunAppend | backend/transcript_parser.py:86-122 | Parsing two runs of lines equals parsing the first and then the second from the state the first left |
| Transcript.DropVttHeader | backend/transcript_parser.py:74 | Removing the header keeps a suffix of the content, and leaves content not starting with `WEBVTT` unchanged |
| Transcript.DropHeader | backend/transcript_parser.py:71-75 | `WEBVTT` followed by a header up to the first blank line is removed, and the body after that blank line is what remains |
| Transcript.HeaderWithoutBlankLine | backend/transcript_parser.py:74 | A `WEBVTT` file with no blank line after the header is left as it is |
| Transcript.Detect | backend/transcript_parser.py:141-147 | The format is VTT exactly when the content starts with `WEBVTT`, and SRT exactly when it does not but holds a cue (digit, newline, stamp, `-->`) somewhere |
| Transcript.FormatOf | backend/transcript_parser.py:141-155 | With a hint, `srt` and `vtt` choose those parsers and any other hint chooses plain text; without one, detection decides |
| Transcript.StripTwice | backend/transcript_parser.py:138 | Stripping is idempotent, so the parsers' own `strip` changes nothing after the outer one |
| Transcript.PlainRouting | backend/transcript_parser.py:138-155 | Content without `WEBVTT` at its start and without any `>` is read as plain text |
| Transcript.VttRouting | backend/transcript_parser.py:138-153 | A WebVTT file is read as the SRT blocks of its body after the header |
| Transcript.HintRouting | backend/transcript_parser.py:138-155 | A format hint decides the parser for any content, detection aside |
| Merge.MergeEntries | backend/transcript_parser.py:158-186 | Merging never adds entries, gives nothing exactly for no entries, and keeps the first entry's start and speaker |
| Merge.MergeSpan | backend/transcript_parser.py:158-186 | The merged list starts when the input starts and ends when the input's last entry ends |
| Merge.MergeKeepsText | backend/transcript_parser.py:158-186 | The words of the transcript, joined by spaces, are the same before and after merging |
| Merge.MergeSeparated | backend/transcript_parser.py:175-183 | After merging, no two neighbouring entries could be merged again |
| Merge.MergeIdentity | backend/transcript_parser.py:175-185 | A list where no neighbours qualify for merging is returned unchanged |
| Merge.MergeIdempotent | backend/transcript_parser.py:158-186 | Merging twice is the same as merging once |
| Merge.MergeAppend | backend/transcript_parser.py:158-186 | When the seam does not qualify for merging, merging two lists one after the other is merging each separately |
| Subtitles.OffsetChoice | backend/video_renderer.py:26-37 | The offset subtracted is either 0 or the clip start, and a clip starting within the first 10 s always has its start subtracted, whatever its captions |
| Subtitles.RelativeCaptions | backend/video_renderer.py:27-35 | Captions that all start more than 5 s before a clip starting past 10 s are left unshifted |
| Subtitles.AbsoluteCaptions | backend/video_renderer.py:27-37 | Captions whose first five starts are no earlier than 5 s before the clip start are shifted by the clip start |
| Subtitles.Shift | backend/video_renderer.py:46-47 | A shifted time is never negative: the time minus the offset, or 0 when that would be negative |
| Subtitles.ShiftMonotone | backend/video_renderer.py:46-47 | Shifting keeps the order of times, so a caption that ends after it starts still does |
| Subtitles.MillisFieldValue | backend/video_renderer.py:56 | The millisecond field is in 0..999 and is the whole milliseconds of the time past its whole second |
| Subtitles.FmtFields | backend/video_renderer.py:52-57 | For a non-negative time the four fields have minutes and seconds in 0..59 and millis in 0..999, and together they are the time truncated to whole milliseconds |
| Subtitles.FmtTimeStamp | backend/video_renderer.py:52-57 | Below 100 hours `fmt_time` writes a 12-character stamp the SRT cue pattern accepts, worth the time truncated to the millisecond |
| Subtitles.MillisecondAccuracy | backend/video_renderer.py:52-57 | A stamp loses less than a millisecond of the time it encodes and never adds to it |
| Subtitles.Written | backend/video_renderer.py:52-59 | A cue's block carries its text unchanged and a number written in decimal digits that reads back as the cue's index |
| Subtitles.Render | backend/video_renderer.py:59 | The blocks are empty exactly when there are no cues |
| Subtitles.GenerateSrt | backend/video_renderer.py:13-60 | The SRT content is empty exactly when there are no captions |
| Subtitles.HexInjective | backend/video_renderer.py:7-11 | Two `#`-colours that give the same FFmpeg colour are the same colour |
| Subtitles.HexRoundTrip | backend/video_renderer.py:7-11 | The colour digits can be read back from the mapped string, which is never `white` |
| RoundTrip.CoreEntry | backend/transcript_parser.py:37-66 | A written block with one trimmed line of text is read back by `parse_srt` as one entry holding its stamps' times and the speaker/text split of its text |
| RoundTrip.RenderParses | backend/transcript_parser.py:32-68 | For blocks with an all-digit number, two `HH:MM:SS,mmm` stamps and a text that is one trimmed, non-empty line, `parse_srt` of the written blocks gives one entry per block, in order |
| RoundTrip.WrittenReadable | backend/video_renderer.py:52-59 | A cue below 100 hours with one trimmed line of text is written as a block the parser reads, with stamps worth its times to the millisecond |
| RoundTrip.GenerateThenParse | backend/video_renderer.py:13-60 | Parsing the generated SRT gives one entry per caption, in order; each entry's times are the caption's shifted times cut to whole milliseconds, and its speaker and text are the split of the caption text |
| RoundTrip.GeneratedDetectedAsSrt | backend/transcript_parser.py:138-151 | Without a format hint, subtitles generated from captions of the kind GenerateThenParse covers (times below 100 hours, one trimmed non-empty text line) are detected as SRT, so `parse_transcript` reads them exactly as `parse_srt` does |
| FaceTracker.Scan | backend/face_tracker.py:55-63 | The running maximum starts at 0 and keeps the first box of strictly largest positive area; if it keeps none, no box has a positive area |
| FaceTracker.Primary | backend/face_tracker.py:53-65 | The chosen detection has positive area, is strictly larger than every earlier one and at least as large as every later one; there is none exactly when no area is positive |
| FaceTracker.PrimaryIsTheOne | backend/face_tracker.py:55-65 | Any box fitting that description is the one chosen, so the choice is fully determined |
| FaceTracker.Clamp01 | backend/face_tracker.py:69 | The centre is clamped into [0, 1]: unchanged inside, 0 below and 1 above |
| FaceTracker.FrameCentre | backend/face_tracker.py:51-69 | A sampled frame's centre is in [0, 1], and it is 0.5 when no face has a positive area |
| FaceTracker.CentreOfPrimary | backend/face_tracker.py:65-69 | A frame's centre is the clamped `xmin + width/2` of its largest face |
| FaceTracker.SampledFramesFacts | backend/face_tracker.py:40-46 | Exactly the frames whose index is a multiple of the sample rate are sampled, in strictly increasing order |
| FaceTracker.AnalyzeFrames | backend/face_tracker.py:37-78 | The loop records the sampled frames in order, each with time frame/fps and its frame's centre; it fails, by division by zero, exactly when fps is 0 and there is a frame |
| CameraPath.InterpAtSample | backend/face_tracker.py:99-100 | At a sampled frame the interpolated path takes the sampled centre |
| CameraPath.InterpOutside | backend/face_tracker.py:99-100 | Before the first sample the path holds the first centre, and after the last it holds the last |
| CameraPath.InterpBetween | backend/face_tracker.py:99-100 | Between two neighbouring samples the path is the straight line through them |
| CameraPath.InterpWithin | backend/face_tracker.py:99-100 | The interpolated path stays within any bounds that hold all sampled centres |
| CameraPath.InterpolatedAtSample | backend/face_tracker.py:95-100 | For every sample inside the clip, the per-frame path at its frame is its centre |
| CameraPath.Smooth | backend/face_tracker.py:103-108 | The smoothed path has length max(frames, 30); from 30 frames on, each value is the mean of a 30-frame window from 15 before to 14 after, with zeros beyond the ends |
| CameraPath.SmoothShortFull | backend/face_tracker.py:103-108 | For a clip shorter than 30 frames, every output whose 30-frame window covers the whole clip is the clip's sum divided by 30 |
| CameraPath.SmoothWithin | backend/face_tracker.py:103-108 | With the values in [l, h] and l ≤ 0 ≤ h, so that the zero padding stays in range, the smoothed values stay in [l, h] |
| CameraPath.SmoothSteady | backend/face_tracker.py:103-108 | A constant path stays constant from frame 15 to 15 before the end, while the first frame drops to half and the last to 16/30 because of the zero padding |
| CameraPath.SmoothCameraPath | backend/face_tracker.py:87-110 | No samples give 0.5 for every frame; with samples, the path fails (numpy raises) exactly when the clip has no frames, and otherwise has max(frames, 30) values |
| CameraPath.PathWithin | backend/face_tracker.py:87-110 | With the sampled centres in [l, h] and l ≤ 0 ≤ h, the whole camera path stays within [l, h] |
| CameraPath.PathSteady | backend/face_tracker.py:87-110 | For a clip of at least 30 frames, a speaker who never moves gives the same centre on every frame except the first 15 and the last 14 |
| Render.RefinedOverrides | backend/video_renderer.py:71-73 | With the refined bounds present, changing the analyser's start and end changes neither the clip's start nor its duration; with no end key the clip lasts 60 s whatever its start |
| Render.Insert | backend/video_renderer.py:171 | Inserting into a sorted list keeps it sorted and adds exactly the one value |
| Render.Sort | backend/video_renderer.py:171 | Sorting gives an ascending permutation of the values |
| Render.MedianOrderFree | backend/video_renderer.py:171 | The median depends only on the values, not on their order |
| Render.MedianWithin | backend/video_renderer.py:171 | The median lies in any range holding all values, and for an odd count it is one of them |
| Render.Tracker | backend/face_tracker.py:25-110 | Whenever the tracker returns the smoothed numpy array, the array has at least 30 values |
| Render.Truth | backend/video_renderer.py:168 | A list is true when non-empty; an array of two or more values has no truth value and raises |
| Render.AsWrittenAlwaysCentred | backend/video_renderer.py:151-181 | As written, every possible tracker outcome leaves the crop centre at 0.5 |
| Render.LeftEdgeSpeaker | backend/video_renderer.py:166-181 | A speaker at the far left edge of a 30-frame clip is cropped at 0.5 as written, but at 0.0 as intended |
| Render.CropCentreWithin | backend/video_renderer.py:151-181 | With the sampled centres inside the frame, the intended crop centre (the median of the path) is inside [0, 1] |
| Render.CropWidthRatio | backend/video_renderer.py:218 | The crop width is the largest whole number of pixels not above 9/16 of the height |
| Render.CropInFrame | backend/video_renderer.py:222-224 | The crop window never starts left of the frame, never ends right of it when it fits, and starts at 0 when the frame is narrower than the window |
| Render.CropHoldsCentre | backend/video_renderer.py:222-224 | A window of at least two pixels, aimed inside the frame, contains the aimed-at pixel column |
| Render.CropMiddle | backend/video_renderer.py:222-224 | Aimed at the middle, the window is centred, with odd leftover pixels going to the right |
| YouTube.Unplus | backend/youtube_helper.py:18 | A `+` in a query value stands for a space: each `+` becomes a space, every other character is kept in place, and no `+` remains |
| YouTube.Pairs | backend/youtube_helper.py:18 | Query pieces without `=` or with an empty value are dropped, so every kept value is non-empty |
| YouTube.FirstValue | backend/youtube_helper.py:18 | The value found for a name comes from the first pair with that name, and there is one exactly when some pair has it |
| YouTube.FirstNamed | backend/youtube_helper.py:18 | Read piece by piece, a name has a value exactly when some '&'-piece names it with a non-empty value, and the value is that of the first such piece |
| YouTube.PairsFirst | backend/youtube_helper.py:18 | Looking a name up among the pairs `parse_qs` keeps gives the same answer as reading the pieces directly: the first piece naming it wins, and pieces with no value are skipped |
| YouTube.WatchValueFirst | backend/youtube_helper.py:18 | For any query, the `v` value is present exactly when some '&'-piece names `v` with a non-empty value, and is then the first such piece's value |
| YouTube.VideoId | backend/youtube_helper.py:6-25 | Hosts other than YouTube's give no id, and a YouTube host with a path other than `/watch` or `/shorts/...` gives none |
| YouTube.CheckedId | backend/youtube_helper.py:32-34 | The transcript fetch is refused exactly when the extracted id is missing or empty; otherwise it uses that id |
| YouTube.WatchLink | backend/youtube_helper.py:16-18 | `watch?v=<id>&...` gives back the id |
| YouTube.WatchLinkAlone | backend/youtube_helper.py:16-18 | `watch?v=<id>` gives back the id |
| YouTube.WatchWithoutV | backend/youtube_helper.py:16-18 | A watch link whose query has no `v` value gives no id |
| YouTube.ShortsLink | backend/youtube_helper.py:19-20 | `/shorts/<id>` gives back the id |
| YouTube.ShortsLinkWithTail | backend/youtube_helper.py:19-20 | `/shorts/<id>/...` gives the id, and later path segments are ignored |
| YouTube.ShortLink | backend/youtube_helper.py:22-23 | `youtu.be/<rest>` gives everything after the first slash, later segments included |
| YouTube.EmptyShortsRefused | backend/youtube_helper.py:19-34 | `/shorts/` with nothing after it extracts the empty id, which the guard refuses |
| Prompt.SecondsOf | backend/podcast_analyzer.py:112 | The seconds field is always in 0..59, negative starts included, because Python's `%` is floored |
| Prompt.StampReadsBack | backend/podcast_analyzer.py:112 | For a non-negative start, `[MM:SS]` has at least two minute digits (no wrap at the hour) and two second digits below 60, which read back the start's whole seconds |
| Prompt.Bodies | backend/podcast_analyzer.py:108-112 | There is one transcript line per entry, in entry order |
| Prompt.TranscriptLines | backend/podcast_analyzer.py:107-112 | The transcript section is the entries' lines, in order, each ended by a newline; with single-line speakers and texts, cutting at newlines gives exactly those lines |
| Prompt.Context | backend/podcast_analyzer.py:115-122 | The context is empty exactly when there is no metadata or none of guest, topic and tone is a non-empty value |
| Prompt.ContextLines | backend/podcast_analyzer.py:115-122 | The context is one `Guest:`/`Topic:`/`Tone:` line per present value, in that order, and nothing else |
| Prompt.ComposedLines | backend/podcast_analyzer.py:107-155 | For speakers and texts without newlines, the prompt starts with a head that depends on the metadata alone, ends with the task text, and between them carries exactly one line per entry, in entry order; this holds whatever the task text, so in particular for the fixed instructions |

## Left out

- Reading files, FFmpeg, OpenCV capture, the MediaPipe detector, the model
  calls, the pydantic schemas and the web server are not modelled. Frames
  arrive as their lists of detected boxes. The URL arrives already split
  into host, path and query.
- Floating point is not modelled: times, centres and areas are exact reals.
  So a float rounding in `%` or `//` is not reproduced. For example, Python
  can print 60 seconds for a tiny negative start.
- `float()` is modelled for plain decimal literals with an optional sign and
  surrounding whitespace. Exponents, `inf`/`nan` and underscores are treated
  as rejected.
- `parse_qs` is modelled with `+` as space. Percent-decoding and the `;`
  separator are left out.
- `get_youtube_transcript` beyond its guard is not modelled, because it
  calls a remote API.
- `analyze_video`'s own probes of width, height and frame count are not
  modelled: the frame count and frame rate are parameters.
- FaceTracker.AnalyzeFrames: requires a non-zero sample rate. Python raises
  `ZeroDivisionError` at `frame_idx % 0`; the model does not.
- Srt.SplitSpeaker: requires text without newlines. This always holds at its
  one call site, where the text is lines joined by spaces.
- RoundTrip.GenerateThenParse: covers captions whose shifted times are below
  100 hours and whose text is one trimmed, non-empty line. Longer times
  write three hour digits, which the cue pattern does not accept. Other texts
  are re-split or dropped by the parser.
- RoundTrip.GeneratedDetectedAsSrt: covers the same captions as
  GenerateThenParse, for the same reason.
- RoundTrip.RenderParses: covers blocks with an all-digit number, two
  `HH:MM:SS,mmm` stamps and one trimmed, non-empty text line. Other blocks
  may be skipped, re-split or merged by the parser.
- Prompt.StampReadsBack: covers starts at or after 0. A negative start is
  modelled, and writes `-1`-style minutes, but no read-back is stated for it.
- Render.CropHoldsCentre: needs a window at least two pixels wide. For a
  one-pixel window, rounding the start down can leave the aimed-at column
  just right of the window.
- CameraPath.SmoothWithin and CameraPath.PathWithin: need 0 inside the
  range, because the moving average pads with zeros. A range such as
  [0.4, 0.6] is not preserved near the ends of the clip.
- The median of a steady camera path (a speaker who never moves) is not
  proved to equal the speaker's centre. The zero-padded end frames make this
  depend on the clip length.
- CameraPath.Smooth: for a clip shorter than 30 frames, the outputs whose
  window covers only part of the clip are stated by their window sums alone;
  SmoothShortFull characterises the ones whose window covers all of it.
- Timestamps.FormatTimestamp: times beyond `timedelta`'s range of
  999999999 days raise `OverflowError` in Python; the model formats them.
- Digits are the ASCII digits `0`-`9`. Python's `\d` and `float()` also
  accept other Unicode decimal digits (Arabic-Indic, full-width and so on),
  which the model rejects.
- Metadata values other than strings, and `None`-valued keys, are not
  modelled. A metadata value is either missing or a string.

## Findings

| source | as written | input that shows it | evidently intended | confidence | as-written member | corrected member |
|---|---|---|---|---|---|---|
| backend/video_renderer.py:166-181 | `if centers:` tests the value `analyze_video` returns. Once a face was sampled, that value is a numpy array of at least 30 values, and its truth test raises `ValueError`. The surrounding `except` keeps the default, so the smart crop always stays at 0.5 | One sample at frame 0 with centre 0.0 and 30 frames in the clip: the crop centre is 0.5 | Use the median of the camera path, 0.0 for that input, whenever the path is non-empty | not executed | Render.CropCentreAsWritten (Render.AsWrittenAlwaysCentred, Render.LeftEdgeSpeaker) | Render.CropCentre (Render.CropCentreWithin, Render.LeftEdgeSpeaker) |
