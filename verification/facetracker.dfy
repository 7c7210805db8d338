/**
 * The pure part of `FaceTracker.analyze_video` (backend/face_tracker.py):
 * every `rate`-th frame is sampled, the detection with the largest box is
 * taken as the speaker, and its horizontal centre, clamped to [0, 1], is
 * recorded with the frame number and its time. Reading the video and running
 * the detector are not modelled: each frame comes in as its list of boxes.
 */
module FaceTracker {
  import opened Strings

  /** A relative bounding box as the detector reports it. */
  datatype Box = Box(xmin: real, width: real, height: real)

  function Area(b: Box): real {
    b.width * b.height
  }

  // ---------------------------------------------------------------------------
  // the primary face

  /**
   * Box `i` is the one the loop keeps: positive area, strictly larger than
   * every box before it (ties keep the earliest) and at least as large as
   * every box after it.
   */
  predicate IsPrimary(boxes: seq<Box>, i: int) {
    && 0 <= i < |boxes| && Area(boxes[i]) > 0.0
    && (forall k :: 0 <= k < i ==> Area(boxes[k]) < Area(boxes[i]))
    && (forall k :: i < k < |boxes| ==> Area(boxes[k]) <= Area(boxes[i]))
  }

  /** The loop over the first `n` boxes: the kept index and `max_area`, which starts at 0. */
  function Scan(boxes: seq<Box>, n: nat): (r: (Option<nat>, real))
    requires n <= |boxes|
    ensures r.1 >= 0.0
    ensures r.0.None? ==> r.1 == 0.0 && forall k :: 0 <= k < n ==> Area(boxes[k]) <= 0.0
    ensures r.0.Some? ==> && r.0.value < n && Area(boxes[r.0.value]) == r.1 > 0.0
                          && (forall k :: 0 <= k < r.0.value ==> Area(boxes[k]) < r.1)
                          && (forall k :: 0 <= k < n ==> Area(boxes[k]) <= r.1)
  {
    if n == 0 then (None, 0.0)
    else
      var (i, m) := Scan(boxes, n - 1);
      if Area(boxes[n - 1]) > m then (Some(n - 1), Area(boxes[n - 1])) else (i, m)
  }

  /** `primary_detection`: `None` when no box has a positive area. */
  function Primary(boxes: seq<Box>): (r: Option<nat>)
    ensures r.Some? ==> IsPrimary(boxes, r.value)
    ensures r.None? <==> forall k :: 0 <= k < |boxes| ==> Area(boxes[k]) <= 0.0
  {
    Scan(boxes, |boxes|).0
  }

  /** The description picks out one box: whichever box meets it is the one chosen. */
  lemma PrimaryIsTheOne(boxes: seq<Box>, i: int)
    requires IsPrimary(boxes, i)
    ensures Primary(boxes) == Some(i)
  {
    var j := Primary(boxes).value;
    assert Area(boxes[j]) == Area(boxes[i]);
  }

  /** `max(0.0, min(1.0, x))` */
  function Clamp01(x: real): (r: real)
    ensures 0.0 <= r <= 1.0
    ensures 0.0 <= x <= 1.0 ==> r == x
    ensures x < 0.0 ==> r == 0.0
    ensures x > 1.0 ==> r == 1.0
  {
    if 1.0 < x then 1.0 else if x < 0.0 then 0.0 else x
  }

  /** The centre recorded for one sampled frame. */
  function FrameCentre(detections: seq<Box>): (c: real)
    ensures 0.0 <= c <= 1.0
    ensures (forall k :: 0 <= k < |detections| ==> Area(detections[k]) <= 0.0) ==> c == 0.5
  {
    if |detections| == 0 then 0.5
    else
      match Primary(detections)
      case None => 0.5
      case Some(i) => Clamp01(detections[i].xmin + detections[i].width / 2.0)
  }

  /** The frame is centred on the primary box: its `xmin + width / 2`, clamped. */
  lemma CentreOfPrimary(detections: seq<Box>, i: int)
    requires IsPrimary(detections, i)
    ensures FrameCentre(detections) == Clamp01(detections[i].xmin + detections[i].width / 2.0)
  {
    PrimaryIsTheOne(detections, i);
  }

  // ---------------------------------------------------------------------------
  // sampling

  /** One entry of `centering_data`. */
  datatype Sample = Sample(frame: nat, timestamp: real, centre: real)

  /** The frames below `n` that `frame_idx % sample_rate == 0` selects, in order. */
  function SampledFrames(n: nat, rate: int): (r: seq<nat>)
    requires rate != 0
  {
    if n == 0 then [] else SampledFrames(n - 1, rate) + (if (n - 1) % rate == 0 then [n - 1] else [])
  }

  /** Exactly the multiples of the rate below `n` are sampled, in strictly increasing order. */
  lemma {:induction false} SampledFramesFacts(n: nat, rate: int)
    requires rate != 0
    ensures forall i, j :: 0 <= i < j < |SampledFrames(n, rate)| ==> SampledFrames(n, rate)[i] < SampledFrames(n, rate)[j]
    ensures forall k :: k in SampledFrames(n, rate) <==> 0 <= k < n && k % rate == 0
  {
    if n > 0 {
      SampledFramesFacts(n - 1, rate);
      var p := SampledFrames(n - 1, rate);
      var tail: seq<nat> := if (n - 1) % rate == 0 then [n - 1] else [];
      assert SampledFrames(n, rate) == p + tail;
      forall k | 0 <= k < |p|
        ensures p[k] < n - 1
      {
        assert p[k] in p;
      }
    }
  }

  function FramesOf(samples: seq<Sample>): (r: seq<int>)
    ensures |r| == |samples|
    ensures forall i :: 0 <= i < |samples| ==> r[i] == samples[i].frame
  {
    seq(|samples|, i requires 0 <= i < |samples| => samples[i].frame)
  }

  /**
   * The sampling loop of `analyze_video` over the frames read. `None` is the
   * division by a zero frame rate, which happens at the first sampled frame.
   */
  method AnalyzeFrames(frames: seq<seq<Box>>, rate: int, fps: real) returns (r: Option<seq<Sample>>)
    requires rate != 0
    ensures r.None? <==> fps == 0.0 && |frames| > 0
    ensures r.Some? ==> FramesOf(r.value) == SampledFrames(|frames|, rate)
    ensures r.Some? ==> forall j :: 0 <= j < |r.value| ==>
      && r.value[j].frame < |frames|
      && r.value[j].timestamp == r.value[j].frame as real / fps
      && r.value[j].centre == FrameCentre(frames[r.value[j].frame])
  {
    var out: seq<Sample> := [];
    var i := 0;
    while i < |frames|
      invariant 0 <= i <= |frames|
      invariant i > 0 ==> fps != 0.0
      invariant FramesOf(out) == SampledFrames(i, rate)
      invariant forall j :: 0 <= j < |out| ==>
        && out[j].frame < i
        && out[j].timestamp == out[j].frame as real / fps
        && out[j].centre == FrameCentre(frames[out[j].frame])
    {
      if i % rate == 0 {
        if fps == 0.0 {
          return None;
        }
        out := out + [Sample(i, i as real / fps, FrameCentre(frames[i]))];
      }
      i := i + 1;
    }
    return Some(out);
  }
}
