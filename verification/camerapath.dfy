/**
 * `FaceTracker._smooth_camera_path` (backend/face_tracker.py): the sparse
 * samples are linearly interpolated to every frame (`numpy.interp`) and then
 * averaged over a 30-frame window (`numpy.convolve(.., ones(30) / 30,
 * mode='same')`), which pads with zeros past both ends.
 */
module CameraPath {
  import opened Strings
  import opened FaceTracker
  import opened RealArith

  const Window := 30

  function Max(a: int, b: int): int {
    if a < b then b else a
  }

  function Min(a: int, b: int): int {
    if a < b then a else b
  }

  predicate StrictlyIncreasing(xs: seq<int>) {
    forall i, j :: 0 <= i < j < |xs| ==> xs[i] < xs[j]
  }

  // ---------------------------------------------------------------------------
  // numpy.interp

  /**
   * `numpy.interp(x, xs, ys)` for increasing `xs`: the first value left of the
   * samples, the last one right of them, and on the segment `xs[j] < x <
   * xs[j+1]` the line through its two ends.
   */
  function Interp(x: int, xs: seq<int>, ys: seq<real>): real
    requires |xs| == |ys| > 0
    decreases |xs|
  {
    if |xs| == 1 || x <= xs[0] then ys[0]
    else if x < xs[1] then (ys[1] - ys[0]) / (xs[1] - xs[0]) as real * (x - xs[0]) as real + ys[0]
    else Interp(x, xs[1..], ys[1..])
  }

  /** At a sample the interpolation gives the sampled value. */
  lemma {:induction false} InterpAtSample(xs: seq<int>, ys: seq<real>, j: int)
    requires |xs| == |ys| && StrictlyIncreasing(xs) && 0 <= j < |xs|
    ensures Interp(xs[j], xs, ys) == ys[j]
    decreases j
  {
    if j > 0 {
      InterpAtSample(xs[1..], ys[1..], j - 1);
    }
  }

  /** Outside the sampled range the nearest end value is held. */
  lemma {:induction false} InterpOutside(x: int, xs: seq<int>, ys: seq<real>)
    requires |xs| == |ys| > 0 && StrictlyIncreasing(xs)
    ensures x <= xs[0] ==> Interp(x, xs, ys) == ys[0]
    ensures x >= xs[|xs| - 1] ==> Interp(x, xs, ys) == ys[|ys| - 1]
    decreases |xs|
  {
    if |xs| > 1 && x >= xs[|xs| - 1] {
      InterpOutside(x, xs[1..], ys[1..]);
    }
  }

  /** Strictly between two neighbouring samples the value lies on the line through them. */
  lemma {:induction false} InterpBetween(x: int, xs: seq<int>, ys: seq<real>, j: int)
    requires |xs| == |ys| && StrictlyIncreasing(xs) && 0 <= j < |xs| - 1
    requires xs[j] < x < xs[j + 1]
    ensures Interp(x, xs, ys) == (ys[j + 1] - ys[j]) / (xs[j + 1] - xs[j]) as real * (x - xs[j]) as real + ys[j]
    decreases j
  {
    if j > 0 {
      assert xs[0] < xs[j] && xs[1] <= xs[j];
      var xt, yt := xs[1..], ys[1..];
      assert xt[j - 1] == xs[j] && xt[j] == xs[j + 1] && yt[j - 1] == ys[j] && yt[j] == ys[j + 1];
      InterpBetween(x, xt, yt, j - 1);
    }
  }

  /** A point of the segment from `a` to `b` lies between them. */
  lemma Blend(a: real, b: real, dx: real, d: real, lo: real, hi: real)
    requires 0.0 < dx < d && lo <= a <= hi && lo <= b <= hi
    ensures lo <= (b - a) / d * dx + a <= hi
  {
    var t := dx / d;
    DivideBounds(dx, d, 0.0);
    assert (b - a) / d * dx == t * (b - a);
    assert (b - a) / d * dx + a == (1.0 - t) * a + t * b;
    MulMonotone(lo, a, 1.0 - t);
    MulMonotone(a, hi, 1.0 - t);
    MulMonotone(lo, b, t);
    MulMonotone(b, hi, t);
  }

  /** Interpolation never leaves the range of the sampled values. */
  lemma {:induction false} InterpWithin(x: int, xs: seq<int>, ys: seq<real>, lo: real, hi: real)
    requires |xs| == |ys| > 0
    requires forall k :: 0 <= k < |ys| ==> lo <= ys[k] <= hi
    ensures lo <= Interp(x, xs, ys) <= hi
    decreases |xs|
  {
    if |xs| == 1 || x <= xs[0] {
    } else if x < xs[1] {
      Blend(ys[0], ys[1], (x - xs[0]) as real, (xs[1] - xs[0]) as real, lo, hi);
    } else {
      InterpWithin(x, xs[1..], ys[1..], lo, hi);
    }
  }

  // ---------------------------------------------------------------------------
  // the moving average

  /** The interpolated value of frame `k`; the zero padding outside the frames. */
  function At(a: seq<real>, k: int): real {
    if 0 <= k < |a| then a[k] else 0.0
  }

  /** The sum of the `n` values from frame `lo` on, zero outside the frames. */
  function WindowSum(a: seq<real>, lo: int, n: nat): real {
    if n == 0 then 0.0 else WindowSum(a, lo, n - 1) + At(a, lo + n - 1)
  }

  /**
   * `numpy.convolve(a, ones(30) / 30, mode='same')`: as long as the longer of
   * the two, each output the average over 30 frames of the zero-padded input,
   * the window placed as numpy centres the full convolution.
   */
  function Smooth(a: seq<real>): (r: seq<real>)
    requires |a| > 0
    ensures |r| == Max(|a|, Window)
    ensures |a| >= Window ==> forall i :: 0 <= i < |r| ==> r[i] == WindowSum(a, i - 15, Window) / 30.0
  {
    var off := (Min(|a|, Window) - 1) / 2;
    seq(Max(|a|, Window), i => WindowSum(a, i + off - (Window - 1), Window) / 30.0)
  }

  lemma {:induction false} WindowSumWithin(a: seq<real>, lo: int, n: nat, l: real, h: real)
    requires l <= 0.0 <= h
    requires forall k :: 0 <= k < |a| ==> l <= a[k] <= h
    ensures n as real * l <= WindowSum(a, lo, n) <= n as real * h
  {
    if n > 0 {
      WindowSumWithin(a, lo, n - 1, l, h);
      var x := At(a, lo + n - 1);
      assert l <= x <= h;
      assert n as real == (n - 1) as real + 1.0;
      StepBounds(WindowSum(a, lo, n - 1), x, (n - 1) as real, l, h);
    }
  }

  /** One more term in range keeps a sum of `m` terms in range as a sum of `m + 1`. */
  lemma StepBounds(s: real, x: real, m: real, l: real, h: real)
    requires m * l <= s <= m * h && l <= x <= h
    ensures (m + 1.0) * l <= s + x <= (m + 1.0) * h
  {
    assert (m + 1.0) * l == m * l + l;
    assert (m + 1.0) * h == m * h + h;
  }

  /** Averaging with zero padding stays within any range that contains the samples and 0. */
  lemma SmoothWithin(a: seq<real>, l: real, h: real)
    requires |a| > 0 && l <= 0.0 <= h
    requires forall k :: 0 <= k < |a| ==> l <= a[k] <= h
    ensures forall i :: 0 <= i < |Smooth(a)| ==> l <= Smooth(a)[i] <= h
  {
    var off := (Min(|a|, Window) - 1) / 2;
    forall i | 0 <= i < |Smooth(a)|
      ensures l <= Smooth(a)[i] <= h
    {
      WindowSumWithin(a, i + off - (Window - 1), Window, l, h);
    }
  }

  lemma {:induction false} WindowSumSplit(a: seq<real>, lo: int, n: nat, m: nat)
    ensures WindowSum(a, lo, n + m) == WindowSum(a, lo, n) + WindowSum(a, lo + n, m)
    decreases m
  {
    if m > 0 {
      WindowSumSplit(a, lo, n, m - 1);
    }
  }

  lemma {:induction false} WindowSumInside(a: seq<real>, lo: int, n: nat, c: real)
    requires 0 <= lo && lo + n <= |a|
    requires forall k :: 0 <= k < |a| ==> a[k] == c
    ensures WindowSum(a, lo, n) == n as real * c
  {
    if n > 0 {
      WindowSumInside(a, lo, n - 1, c);
    }
  }

  lemma {:induction false} WindowSumBefore(a: seq<real>, lo: int, n: nat)
    requires lo + n <= 0
    ensures WindowSum(a, lo, n) == 0.0
  {
    if n > 0 {
      WindowSumBefore(a, lo, n - 1);
    }
  }

  lemma {:induction false} WindowSumAfter(a: seq<real>, lo: int, n: nat)
    requires |a| <= lo
    ensures WindowSum(a, lo, n) == 0.0
  {
    if n > 0 {
      WindowSumAfter(a, lo, n - 1);
    }
  }

  /**
   * A clip shorter than the window: every output whose window covers the whole
   * clip is the clip's sum divided by 30, padding zeros included.
   */
  lemma SmoothShortFull(a: seq<real>, i: int)
    requires 0 < |a| < Window
    requires |a| - 1 - (|a| - 1) / 2 <= i <= Window - 1 - (|a| - 1) / 2
    ensures 0 <= i < |Smooth(a)|
    ensures Smooth(a)[i] == WindowSum(a, 0, |a|) / 30.0
  {
    var lo := i + (|a| - 1) / 2 - (Window - 1);
    WindowSumSplit(a, lo, -lo, Window + lo);
    WindowSumBefore(a, lo, -lo);
    WindowSumSplit(a, 0, |a|, Window + lo - |a|);
    WindowSumAfter(a, |a|, Window + lo - |a|);
  }

  /**
   * A steady input stays steady wherever the window lies inside the clip; the
   * first frame averages in 15 padding zeros and the last one 14.
   */
  lemma SmoothSteady(a: seq<real>, c: real)
    requires |a| >= Window
    requires forall k :: 0 <= k < |a| ==> a[k] == c
    ensures forall i :: 15 <= i <= |a| - 15 ==> Smooth(a)[i] == c
    ensures Smooth(a)[0] == c / 2.0
    ensures Smooth(a)[|a| - 1] == 16.0 * c / 30.0
  {
    forall i | 15 <= i <= |a| - 15
      ensures Smooth(a)[i] == c
    {
      WindowSumInside(a, i - 15, Window, c);
    }
    WindowSumSplit(a, -15, 15, 15);
    WindowSumBefore(a, -15, 15);
    WindowSumInside(a, 0, 15, c);
    var t := |a| - 16;
    WindowSumSplit(a, t, 16, 14);
    WindowSumInside(a, t, 16, c);
    WindowSumAfter(a, t + 16, 14);
  }

  // ---------------------------------------------------------------------------
  // the camera path

  function Centres(data: seq<Sample>): (r: seq<real>)
    ensures |r| == |data|
    ensures forall i :: 0 <= i < |data| ==> r[i] == data[i].centre
  {
    seq(|data|, i requires 0 <= i < |data| => data[i].centre)
  }

  /** `numpy.interp(numpy.arange(frames), sampled frames, sampled centres)` */
  function Interpolated(data: seq<Sample>, frames: nat): (r: seq<real>)
    requires |data| > 0
    ensures |r| == frames
    ensures forall i :: 0 <= i < frames ==> r[i] == Interp(i, FramesOf(data), Centres(data))
  {
    seq(frames, i => Interp(i, FramesOf(data), Centres(data)))
  }

  /**
   * `_smooth_camera_path`: `None` is numpy's refusal to convolve an empty
   * array, which happens when there are samples but no frames.
   */
  function SmoothCameraPath(data: seq<Sample>, totalFrames: int): (r: Option<seq<real>>)
    ensures |data| == 0 ==> r.Some? && |r.value| == Max(totalFrames, 0) && forall i :: 0 <= i < |r.value| ==> r.value[i] == 0.5
    ensures |data| > 0 ==> (r.None? <==> totalFrames <= 0)
    ensures |data| > 0 && r.Some? ==> |r.value| == Max(totalFrames, Window)
  {
    if |data| == 0 then Some(seq(Max(totalFrames, 0), _ => 0.5))
    else if totalFrames <= 0 then None
    else Some(Smooth(Interpolated(data, totalFrames)))
  }

  /** The path at a sampled frame, before smoothing, is the centre measured there. */
  lemma InterpolatedAtSample(data: seq<Sample>, frames: nat, j: int)
    requires StrictlyIncreasing(FramesOf(data)) && 0 <= j < |data| && data[j].frame < frames
    ensures Interpolated(data, frames)[data[j].frame] == data[j].centre
  {
    InterpAtSample(FramesOf(data), Centres(data), j);
  }

  /** Every position on the path lies in any range holding all centres and 0; so in [0, 1]. */
  lemma PathWithin(data: seq<Sample>, totalFrames: int, l: real, h: real)
    requires l <= 0.0 <= h
    requires forall k :: 0 <= k < |data| ==> l <= data[k].centre <= h
    requires SmoothCameraPath(data, totalFrames).Some?
    ensures l <= 0.5 <= h ==> forall i :: 0 <= i < |SmoothCameraPath(data, totalFrames).value| ==> l <= SmoothCameraPath(data, totalFrames).value[i] <= h
    ensures |data| > 0 ==> forall i :: 0 <= i < |SmoothCameraPath(data, totalFrames).value| ==> l <= SmoothCameraPath(data, totalFrames).value[i] <= h
  {
    if |data| > 0 {
      var a := Interpolated(data, totalFrames);
      forall i | 0 <= i < totalFrames
        ensures l <= a[i] <= h
      {
        InterpWithin(i, FramesOf(data), Centres(data), l, h);
      }
      SmoothWithin(a, l, h);
    }
  }

  /** When every sample has the same centre, the path holds it away from the clip's edges. */
  lemma PathSteady(data: seq<Sample>, totalFrames: int, c: real)
    requires |data| > 0 && totalFrames >= Window
    requires forall k :: 0 <= k < |data| ==> data[k].centre == c
    ensures forall i :: 15 <= i <= totalFrames - 15 ==> SmoothCameraPath(data, totalFrames).value[i] == c
  {
    var a := Interpolated(data, totalFrames);
    forall i | 0 <= i < totalFrames
      ensures a[i] == c
    {
      InterpWithin(i, FramesOf(data), Centres(data), c, c);
    }
    SmoothSteady(a, c);
  }
}
