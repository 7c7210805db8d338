/**
 * The arithmetic of `render_video_clip` and `render_vertical_video`
 * (backend/video_renderer.py): the clip's time range, the horizontal centre
 * the smart crop aims at, and the 9:16 crop window placed around it. FFmpeg,
 * the probe of the source and the files written are not modelled.
 */
module Render {
  import opened Strings
  import opened RealArith
  import opened FaceTracker
  import opened CameraPath

  // ---------------------------------------------------------------------------
  // timing

  /** The timing keys of a clip; a missing key is `None`. */
  datatype ClipData = ClipData(refinedStart: Option<real>, start: Option<real>, refinedEnd: Option<real>, end: Option<real>)

  /** `clip_data.get('refined_start', clip_data.get('start', 0))` */
  function ClipStart(c: ClipData): real {
    if c.refinedStart.Some? then c.refinedStart.value
    else if c.start.Some? then c.start.value
    else 0.0
  }

  /** `clip_data.get('refined_end', clip_data.get('end', start + 60))` */
  function ClipEnd(c: ClipData): real {
    if c.refinedEnd.Some? then c.refinedEnd.value
    else if c.end.Some? then c.end.value
    else ClipStart(c) + 60.0
  }

  /** `duration = end_time - start_time` */
  function Duration(c: ClipData): real {
    ClipEnd(c) - ClipStart(c)
  }

  /**
   * Once the refined bounds are present the analyser's bounds no longer
   * matter: replacing them changes neither where the clip starts nor how long
   * it lasts. Without any end key a clip lasts one minute wherever it starts.
   */
  lemma RefinedOverrides(c: ClipData, start: Option<real>, end: Option<real>)
    ensures c.refinedStart.Some? ==> ClipStart(c.(start := start)) == ClipStart(c)
    ensures c.refinedStart.Some? && c.refinedEnd.Some? ==>
      Duration(c.(start := start, end := end)) == Duration(c)
    ensures c.refinedEnd.None? && c.end.None? ==> Duration(c.(start := start)) == 60.0
  {
  }

  // ---------------------------------------------------------------------------
  // the median

  predicate Sorted(s: seq<real>) {
    forall i, j :: 0 <= i < j < |s| ==> s[i] <= s[j]
  }

  function Insert(x: real, s: seq<real>): (r: seq<real>)
    requires Sorted(s)
    ensures |r| == |s| + 1
    ensures Sorted(r) && multiset(r) == multiset(s) + multiset{x}
  {
    if |s| == 0 then [x]
    else if x <= s[0] then
      ConsSorted(x, s);
      [x] + s
    else
      var t := Insert(x, s[1..]);
      assert s == [s[0]] + s[1..];
      BoundKept(s[0], s[1..], x, t);
      ConsSorted(s[0], t);
      [s[0]] + t
  }

  /** A value no larger than the first of an ascending sequence can go in front of it. */
  lemma ConsSorted(h: real, t: seq<real>)
    requires Sorted(t) && (|t| > 0 ==> h <= t[0])
    ensures Sorted([h] + t)
  {
    var r := [h] + t;
    forall i, j | 0 <= i < j < |r|
      ensures r[i] <= r[j]
    {
      if i > 0 {
        assert r[i] == t[i - 1] && r[j] == t[j - 1];
      } else {
        assert r[j] == t[j - 1] && t[0] <= t[j - 1];
      }
    }
  }

  /** A lower bound of `s` and of `x` bounds every value of a permutation of `s` plus `x`. */
  lemma BoundKept(b: real, s: seq<real>, x: real, t: seq<real>)
    requires forall k :: 0 <= k < |s| ==> b <= s[k]
    requires b <= x && multiset(t) == multiset(s) + multiset{x}
    ensures forall k :: 0 <= k < |t| ==> b <= t[k]
  {
    forall k | 0 <= k < |t|
      ensures b <= t[k]
    {
      assert t[k] in multiset(t);
      if t[k] != x {
        assert t[k] in s;
      }
    }
  }

  /** The values in ascending order. */
  function Sort(s: seq<real>): (r: seq<real>)
    ensures |r| == |s|
    ensures Sorted(r) && multiset(r) == multiset(s)
  {
    if |s| == 0 then []
    else
      assert s == [s[0]] + s[1..];
      Insert(s[0], Sort(s[1..]))
  }

  lemma MultisetTail(a: seq<real>)
    requires |a| > 0
    ensures multiset(a[1..]) == multiset(a) - multiset{a[0]}
  {
    assert a == [a[0]] + a[1..];
  }

  /** Two ascending sequences of the same values are the same sequence. */
  lemma {:induction false} SortedUnique(a: seq<real>, b: seq<real>)
    requires Sorted(a) && Sorted(b) && multiset(a) == multiset(b)
    ensures a == b
    decreases |a|
  {
    assert |a| == |multiset(a)| == |multiset(b)| == |b|;
    if |a| > 0 {
      HeadBelow(a, b);
      HeadBelow(b, a);
      MultisetTail(a);
      MultisetTail(b);
      SortedUnique(a[1..], b[1..]);
    }
  }

  /** The first value of an ascending sequence is at most every value of the other's. */
  lemma HeadBelow(a: seq<real>, b: seq<real>)
    requires Sorted(b) && |a| > 0 && |b| > 0 && multiset(a) == multiset(b)
    ensures b[0] <= a[0]
  {
    assert a[0] in multiset(b);
    var i :| 0 <= i < |b| && b[i] == a[0];
  }

  /** The middle value, or the mean of the two middle values. */
  function Middle(s: seq<real>): real
    requires |s| > 0
  {
    var n := |s|;
    if n % 2 == 1 then s[n / 2] else (s[n / 2 - 1] + s[n / 2]) / 2.0
  }

  /** `numpy.median`: the middle of the values in ascending order. */
  function Median(xs: seq<real>): real
    requires |xs| > 0
  {
    Middle(Sort(xs))
  }

  /** The median depends on the values only, not on their order. */
  lemma MedianOrderFree(xs: seq<real>, ys: seq<real>)
    requires |xs| > 0 && multiset(xs) == multiset(ys)
    ensures |ys| > 0 && Median(xs) == Median(ys)
  {
    SortedUnique(Sort(xs), Sort(ys));
    assert |ys| == |Sort(ys)| == |Sort(xs)| == |xs|;
  }

  /** The median lies within any range that holds all the values, and an odd count's median is one of them. */
  lemma MedianWithin(xs: seq<real>, l: real, h: real)
    requires |xs| > 0
    requires forall k :: 0 <= k < |xs| ==> l <= xs[k] <= h
    ensures l <= Median(xs) <= h
    ensures |xs| % 2 == 1 ==> Median(xs) in xs
  {
    var s := Sort(xs);
    assert forall k :: 0 <= k < |s| ==> s[k] in multiset(xs);
  }

  // ---------------------------------------------------------------------------
  // what the face tracker hands back

  /**
   * The value `analyze_video` returns: a list (the `[]` of a file it cannot
   * open, or the `[0.5] * total_frames` of a clip with no samples), a numpy
   * array from the smoothing, or an exception.
   */
  datatype TrackerOutput = Listed(xs: seq<real>) | Smoothed(xs: seq<real>) | Raised

  /**
   * `analyze_video` from the capture's state on: `sampled` is the outcome of
   * the sampling loop, `None` when it divided by a zero frame rate.
   */
  function Tracker(isOpen: bool, sampled: Option<seq<Sample>>, totalFrames: int): (r: TrackerOutput)
    ensures r.Smoothed? ==> |r.xs| >= Window
  {
    if !isOpen then Listed([])
    else if sampled.None? then Raised
    else
      match SmoothCameraPath(sampled.value, totalFrames)
      case None => Raised
      case Some(path) => if |sampled.value| == 0 then Listed(path) else Smoothed(path)
  }

  /**
   * Python's `if centers:`. A list is true when non-empty; a numpy array of
   * one element is true when that element is, and one of two or more raises
   * (`None` here) because its truth value is ambiguous.
   */
  function Truth(o: TrackerOutput): (r: Option<bool>)
    requires !o.Raised?
    ensures o.Listed? ==> r == Some(|o.xs| > 0)
    ensures o.Smoothed? ==> (r.None? <==> |o.xs| >= 2)
  {
    match o
    case Listed(xs) => Some(|xs| > 0)
    case Smoothed(xs) =>
      if |xs| == 0 then Some(false) else if |xs| == 1 then Some(xs[0] != 0.0) else None
  }

  /**
   * The centre the smart crop aims at, as written: 0.5 unless the truth test
   * passes, and 0.5 again when the tracker or the truth test raises, since
   * both sit inside the `try` whose handler keeps the default.
   */
  function CropCentreAsWritten(o: TrackerOutput): real {
    match o
    case Raised => 0.5
    case _ =>
      match Truth(o)
      case None => 0.5
      case Some(b) => if b then Median(o.xs) else 0.5
  }

  /** Every output of the tracker leads the crop, as written, to the middle of the frame. */
  lemma AsWrittenAlwaysCentred(isOpen: bool, sampled: Option<seq<Sample>>, totalFrames: int)
    ensures CropCentreAsWritten(Tracker(isOpen, sampled, totalFrames)) == 0.5
  {
    var o := Tracker(isOpen, sampled, totalFrames);
    if o.Listed? && |o.xs| > 0 {
      assert |sampled.value| == 0;
      MedianWithin(o.xs, 0.5, 0.5);
    }
  }

  /** The centre the smart crop is meant to aim at: the median of the path whenever there is one. */
  function CropCentre(o: TrackerOutput): real {
    match o
    case Raised => 0.5
    case _ => if |o.xs| > 0 then Median(o.xs) else 0.5
  }

  /** With the centres measured inside the frame, the intended crop centre is inside it too. */
  lemma CropCentreWithin(isOpen: bool, sampled: Option<seq<Sample>>, totalFrames: int)
    requires sampled.Some? ==> forall k :: 0 <= k < |sampled.value| ==> 0.0 <= sampled.value[k].centre <= 1.0
    ensures 0.0 <= CropCentre(Tracker(isOpen, sampled, totalFrames)) <= 1.0
  {
    var o := Tracker(isOpen, sampled, totalFrames);
    if !o.Raised? && |o.xs| > 0 {
      PathWithin(sampled.value, totalFrames, 0.0, 1.0);
      MedianWithin(o.xs, 0.0, 1.0);
    }
  }

  /** A single face at the left edge, seen in the first frame of a 30-frame clip. */
  lemma LeftEdgeSpeaker()
    ensures CropCentreAsWritten(Tracker(true, Some([Sample(0, 0.0, 0.0)]), 30)) == 0.5
    ensures CropCentre(Tracker(true, Some([Sample(0, 0.0, 0.0)]), 30)) == 0.0
  {
    var data := [Sample(0, 0.0, 0.0)];
    AsWrittenAlwaysCentred(true, Some(data), 30);
    PathWithin(data, 30, 0.0, 0.0);
    MedianWithin(SmoothCameraPath(data, 30).value, 0.0, 0.0);
  }

  // ---------------------------------------------------------------------------
  // the crop window

  /** `int(height * (9/16))`; 9/16 is exact in binary floating point. */
  function CropWidth(height: int): int {
    Trunc(height as real * 0.5625)
  }

  /** The width is the largest whole number of pixels not above 9/16 of the height. */
  lemma CropWidthRatio(height: int)
    requires height >= 0
    ensures 0 <= CropWidth(height)
    ensures 16 * CropWidth(height) <= 9 * height < 16 * (CropWidth(height) + 1)
  {
    var w := CropWidth(height);
    assert w as real <= height as real * 0.5625 < w as real + 1.0;
    assert (16 * w) as real <= (9 * height) as real < (16 * (w + 1)) as real;
  }

  /** `max(0, min(width - crop_w, int(centre * width - crop_w / 2)))` */
  function CropX(width: int, cropWidth: int, centre: real): int {
    Max(0, Min(width - cropWidth, Trunc(centre * width as real - cropWidth as real / 2.0)))
  }

  /**
   * The window never starts left of the frame, never ends right of it when it
   * fits, and for a frame narrower than the window starts at 0.
   */
  lemma CropInFrame(width: int, cropWidth: int, centre: real)
    ensures CropX(width, cropWidth, centre) >= 0
    ensures cropWidth <= width ==> CropX(width, cropWidth, centre) + cropWidth <= width
    ensures width < cropWidth ==> CropX(width, cropWidth, centre) == 0
  {
  }

  /** A window at least two pixels wide, aimed inside the frame, holds the aimed-at pixel column. */
  lemma CropHoldsCentre(width: int, cropWidth: int, centre: real)
    requires 2 <= cropWidth <= width && 0.0 <= centre <= 1.0
    ensures var x := CropX(width, cropWidth, centre);
      x as real <= centre * width as real <= (x + cropWidth) as real
  {
    MulMonotone(0.0, centre, width as real);
    MulMonotone(centre, 1.0, width as real);
    WindowHolds(width, cropWidth, centre * width as real);
  }

  /** The clamped window start for the pixel position `p`. */
  lemma WindowHolds(width: int, cropWidth: int, p: real)
    requires 2 <= cropWidth <= width && 0.0 <= p <= width as real
    ensures var x := Max(0, Min(width - cropWidth, Trunc(p - cropWidth as real / 2.0)));
      x as real <= p <= (x + cropWidth) as real
  {
    var q := p - cropWidth as real / 2.0;
    var t := Trunc(q);
    if q >= 0.0 {
      assert t as real <= q;
    } else {
      assert t <= 0;
    }
    assert (t + cropWidth) as real > q - 1.0 + cropWidth as real >= p;
  }

  /** Aimed at the middle, the window sits in the middle, rounded towards the left. */
  lemma CropMiddle(width: int, cropWidth: int)
    requires 0 <= cropWidth <= width
    ensures CropX(width, cropWidth, 0.5) == ((width - cropWidth) as real / 2.0).Floor
  {
    assert 0.5 * width as real - cropWidth as real / 2.0 == (width - cropWidth) as real / 2.0;
  }
}
