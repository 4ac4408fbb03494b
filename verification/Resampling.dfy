/** Resampling a polyline at a fixed arc-length step. */
module Resampling {
  import opened Prelude
  import opened Reals
  import opened Geometry
  import opened Centerlines

  datatype SampledPoint = SampledPoint(point: Point, distance: real, accumulated: real)

  datatype ResampleError = InsufficientUsablePoints | InvalidStep | ZeroLengthGeometry

  // ----- segments -----

  /** A closed polyline that repeats its first point at the end loses the repetition. */
  function Unrepeated(points: seq<Point>, closed: bool): (r: seq<Point>)
    requires |points| >= 2
    ensures |r| >= 2
  {
    if closed && |points| > 2 && points[0] == points[|points| - 1] then points[..|points| - 1] else points
  }

  lemma {:induction false} ChainOfPrefix(sqrt: real -> real, points: seq<Point>, n: nat, hops: nat)
    requires hops < n <= |points|
    ensures Chain(sqrt, points[..n], hops) == Chain(sqrt, points, hops)
    ensures PathLength(sqrt, points[..n], hops) == PathLength(sqrt, points, hops)
  {
    hide Extend, Distance;
    if hops > 0 {
      ChainOfPrefix(sqrt, points, n, hops - 1);
      assert points[..n][hops] == points[hops] && points[..n][hops - 1] == points[hops - 1];
    }
  }

  /** Dropping the repetition changes nothing: the closing segment takes the place of the last hop. */
  lemma RepetitionIsHarmless(sqrt: real -> real, points: seq<Point>, closed: bool)
    requires IsSqrt(sqrt) && |points| >= 2
    ensures CenterlineSegments(sqrt, Unrepeated(points, closed), closed) == CenterlineSegments(sqrt, points, closed)
  {
    var n := |points|;
    if closed && n > 2 && points[0] == points[n - 1] {
      var kept := points[..n - 1];
      ChainOfPrefix(sqrt, points, n - 1, n - 2);
      DistanceFacts(sqrt, points[n - 2], points[n - 1]);
      assert kept[0] == points[0] && kept[n - 2] == points[n - 2];
      hide Distance, IsSqrt;
    }
  }

  method BuildSegments(sqrt: real -> real, input: seq<Point>, closed: bool)
    returns (segments: seq<Segment>, total: real)
    requires IsSqrt(sqrt) && |input| >= 2
    ensures segments == CenterlineSegments(sqrt, input, closed)
    ensures total == EndOf(segments)
  {
    var points := Unrepeated(input, closed);
    RepetitionIsHarmless(sqrt, input, closed);
    var centerline := NewCenterline(sqrt, points, closed);
    if centerline.Ok? {
      return centerline.value.segments, centerline.value.totalMeters;
    }
    segments, total := RawSegments(sqrt, points, closed);
  }

  /** The fallback loop, for when no centerline can be built. */
  method RawSegments(sqrt: real -> real, points: seq<Point>, closed: bool) returns (segments: seq<Segment>, total: real)
    requires IsSqrt(sqrt) && |points| >= 2
    ensures segments == CenterlineSegments(sqrt, points, closed)
    ensures total == EndOf(segments)
  {
    var n := |points|;
    DistanceFacts(sqrt, points[n - 1], points[0]);
    hide IsSqrt, Distance;
    segments, total := [], 0.0;
    for i := 0 to n - 1
      invariant segments == Chain(sqrt, points, i)
      invariant total == EndOf(segments)
    {
      var length := Distance(sqrt, points[i], points[i + 1]);
      if length == 0.0 {
        continue;
      }
      segments := segments + [Segment(points[i], points[i + 1], total, total + length, length)];
      total := total + length;
    }
    if closed {
      var length := Distance(sqrt, points[n - 1], points[0]);
      if length > 0.0 {
        segments := segments + [Segment(points[n - 1], points[0], total, total + length, length)];
        total := total + length;
      }
    }
  }

  // ----- interpolation -----

  /** The first segment from `from` on that ends at or after `distance`, or the number of segments. */
  function FirstReaching(segments: seq<Segment>, distance: real, from: nat): (k: nat)
    requires from <= |segments|
    ensures from <= k <= |segments|
    ensures forall j :: from <= j < k ==> distance > segments[j].endMeters
    ensures k < |segments| ==> distance <= segments[k].endMeters
    decreases |segments| - from
  {
    if from == |segments| || distance <= segments[from].endMeters then from
    else FirstReaching(segments, distance, from + 1)
  }

  function RatioAt(s: Segment, distance: real): real {
    if s.length == 0.0 then 0.0 else (distance - s.startMeters) / s.length
  }

  method InterpolateSegments(segments: seq<Segment>, distance: real) returns (p: Point)
    requires forall k :: 0 <= k < |segments| ==> segments[k].length > 0.0
    ensures p == Interpolated(segments, distance)
  {
    if |segments| == 0 {
      return Point(0.0, 0.0, 0.0);
    }
    if distance <= 0.0 {
      return segments[0].start;
    }
    var last := segments[|segments| - 1];
    if distance >= last.endMeters {
      return last.end;
    }
    for i := 0 to |segments|
      invariant FirstReaching(segments, distance, 0) == FirstReaching(segments, distance, i)
    {
      var segment := segments[i];
      if distance > segment.endMeters {
        continue;
      }
      var ratio := (distance - segment.startMeters) / segment.length;
      if ratio < 0.0 {
        ratio := 0.0;
      }
      if ratio > 1.0 {
        ratio := 1.0;
      }
      return Lerp(segment.start, segment.end, ratio);
    }
    return last.end;
  }

  function Interpolated(segments: seq<Segment>, distance: real): Point {
    if segments == [] then Point(0.0, 0.0, 0.0)
    else if distance <= 0.0 then segments[0].start
    else if distance >= EndOf(segments) then segments[|segments| - 1].end
    else
      var k := FirstReaching(segments, distance, 0);
      if k == |segments| then segments[|segments| - 1].end
      else Lerp(segments[k].start, segments[k].end, Clamp01(RatioAt(segments[k], distance)))
  }

  /** On a chain the interpolated point lies at exactly the requested arc length: the clamps never fire. */
  lemma InterpolatedAtArcLength(sqrt: real -> real, segments: seq<Segment>, from: Point, to: Point, d: real)
    requires IsChain(sqrt, segments, from, to) && segments != []
    requires 0.0 <= d <= EndOf(segments)
    ensures AtArcLength(segments, d, Interpolated(segments, d))
  {
    hide Distance;
    var last := |segments| - 1;
    ChainMonotone(sqrt, segments, from, to, 0);
    ChainMonotone(sqrt, segments, from, to, last);
    LerpEnds(segments[0].start, segments[0].end);
    LerpEnds(segments[last].start, segments[last].end);
    TimesUnits(segments[0].length);
    TimesUnits(segments[last].length);
    hide Times, Lerp;
    if d == 0.0 {
      assert OnSegmentAt(segments[0], 0.0, d, Interpolated(segments, d));
    } else if d == EndOf(segments) {
      assert OnSegmentAt(segments[last], 1.0, d, Interpolated(segments, d));
    } else {
      var k := FirstReaching(segments, d, 0);
      assert k <= last;
      StartsAtOrBefore(sqrt, segments, from, to, d, k);
      assert Measured(sqrt, segments[k]);
      RatioInRange(segments[k], d);
      assert OnSegmentAt(segments[k], RatioAt(segments[k], d), d, Interpolated(segments, d));
    }
  }

  lemma StartsAtOrBefore(sqrt: real -> real, segments: seq<Segment>, from: Point, to: Point, d: real, k: nat)
    requires IsChain(sqrt, segments, from, to) && k < |segments| && d >= 0.0
    requires forall j :: 0 <= j < k ==> d > segments[j].endMeters
    ensures segments[k].startMeters <= d
  {
    if k > 0 {
      assert Joined(segments[k - 1], segments[k - 1 + 1]);
    }
  }

  lemma RatioInRange(s: Segment, d: real)
    requires s.length > 0.0 && s.endMeters == s.startMeters + s.length
    requires s.startMeters <= d <= s.endMeters
    ensures 0.0 <= RatioAt(s, d) <= 1.0
    ensures d == s.startMeters + Times(s.length, RatioAt(s, d))
  {
    var ratio := Quotient(d - s.startMeters, s.length);
    TimesUnits(s.length);
    if ratio < 0.0 { TimesStrict(s.length, ratio, 0.0); }
    if ratio > 1.0 { TimesStrict(s.length, 1.0, ratio); }
    hide Times;
  }

  // ----- targets -----

  function Ceiling(v: real): int {
    -((-v).Floor)
  }

  /** How many multiples of `step` from 0 on lie below `total`. */
  function StepCount(total: real, step: real): (n: nat)
    requires total > 0.0 && step > 0.0
    ensures n > 0
  {
    QuotientOrder(0.0, total, step);
    QuotientSign(total, step);
    Ceiling(total / step)
  }

  function Multiple(step: real, k: int): real {
    Times(k as real, step)
  }

  lemma StepCountSpec(total: real, step: real, k: int)
    requires total > 0.0 && step > 0.0
    ensures k < StepCount(total, step) <==> Multiple(step, k) < total
  {
    var q := Quotient(total, step);
    TimesCommutes(step, k as real);
    hide Times;
    if (k as real) < q {
      TimesStrict(step, k as real, q);
    } else {
      TimesOrder(step, q, k as real);
    }
  }

  function Targets(total: real, step: real, closed: bool): seq<real>
    requires total > 0.0 && step > 0.0
  {
    var below := seq(StepCount(total, step), k => Multiple(step, k));
    if closed then below else below + [total]
  }

  method BuildTargets(total: real, step: real, closed: bool) returns (targets: seq<real>)
    requires total > 0.0 && step > 0.0
    ensures targets == Targets(total, step, closed)
  {
    targets := [];
    var distance := 0.0;
    TimesUnits(step);
    StepCountSpec(total, step, 0);
    while distance < total
      invariant |targets| <= StepCount(total, step)
      invariant distance == Multiple(step, |targets|)
      invariant distance < total <==> |targets| < StepCount(total, step)
      invariant forall k :: 0 <= k < |targets| ==> targets[k] == Multiple(step, k)
      decreases StepCount(total, step) - |targets|
    {
      StepCountSpec(total, step, |targets| + 1);
      MultipleNext(step, |targets|);
      hide Times;
      targets := targets + [distance];
      distance := distance + step;
    }
    if !closed {
      StepCountSpec(total, step, |targets| - 1);
      if |targets| == 0 || targets[|targets| - 1] != total {
        targets := targets + [total];
      }
    }
  }

  lemma MultipleNext(step: real, k: int)
    ensures Multiple(step, k + 1) == Multiple(step, k) + step
  {
    TimesSum(step, k as real, 1.0);
    TimesUnits(step);
    hide Times;
  }

  // ----- resampling -----

  function SampleAt(segments: seq<Segment>, target: real): SampledPoint {
    SampledPoint(Interpolated(segments, target), target, target)
  }

  method ResamplePolyline(sqrt: real -> real, points: seq<Point>, step: real, closed: bool)
    returns (r: Result<(seq<SampledPoint>, real), ResampleError>)
    requires IsSqrt(sqrt)
    ensures r == Resampled(sqrt, points, step, closed)
  {
    if |points| < 2 {
      return Err(InsufficientUsablePoints);
    }
    if !(step > 0.0) {
      return Err(InvalidStep);
    }
    var segments, total := BuildSegments(sqrt, points, closed);
    if total <= 0.0 || |segments| == 0 {
      return Err(ZeroLengthGeometry);
    }
    var targets := BuildTargets(total, step, closed);
    PositiveLengths(sqrt, points, closed);
    var out: seq<SampledPoint> := [];
    hide IsSqrt, CenterlineSegments, Targets, Interpolated;
    for i := 0 to |targets|
      invariant |out| == i && forall k :: 0 <= k < i ==> out[k] == SampleAt(segments, targets[k])
    {
      var point := InterpolateSegments(segments, targets[i]);
      out := out + [SampledPoint(point, targets[i], targets[i])];
    }
    assert out == SamplesAt(segments, targets);
    if |out| < 2 {
      return Err(InsufficientUsablePoints);
    }
    return Ok((out, total));
  }

  function SamplesAt(segments: seq<Segment>, targets: seq<real>): seq<SampledPoint> {
    seq(|targets|, k requires 0 <= k < |targets| => SampleAt(segments, targets[k]))
  }

  function Resampled(sqrt: real -> real, points: seq<Point>, step: real, closed: bool)
    : Result<(seq<SampledPoint>, real), ResampleError>
  {
    if |points| < 2 then Err(InsufficientUsablePoints)
    else if step <= 0.0 then Err(InvalidStep)
    else
      var segments := CenterlineSegments(sqrt, points, closed);
      var total := EndOf(segments);
      if total <= 0.0 || segments == [] then Err(ZeroLengthGeometry)
      else
        var targets := Targets(total, step, closed);
        if |targets| < 2 then Err(InsufficientUsablePoints) else Ok((SamplesAt(segments, targets), total))
  }

  lemma PositiveLengths(sqrt: real -> real, points: seq<Point>, closed: bool)
    requires IsSqrt(sqrt) && |points| >= 2
    ensures var segments := CenterlineSegments(sqrt, points, closed);
            forall k :: 0 <= k < |segments| ==> segments[k].length > 0.0
  {
    CenterlineSegmentsSpec(sqrt, points, closed);
  }

  /** The length that a resampled line reports: the path through the points and, if closed, back to the start. */
  ghost function TrackLength(sqrt: real -> real, points: seq<Point>, closed: bool): real
    requires |points| >= 2
  {
    PathLength(sqrt, points, |points| - 1) + (if closed then Distance(sqrt, points[|points| - 1], points[0]) else 0.0)
  }

  /** Resampling succeeds exactly on two or more points that are not all the same, with a positive step
      that, on a closed line, is shorter than the line. */
  lemma ResampleSucceeds(sqrt: real -> real, points: seq<Point>, step: real, closed: bool)
    requires IsSqrt(sqrt)
    ensures Resampled(sqrt, points, step, closed).Ok?
        <==> |points| >= 2 && step > 0.0 && !AllSame(points) && (closed ==> step < TrackLength(sqrt, points, closed))
  {
    if |points| >= 2 && step > 0.0 {
      CenterlineSegmentsSpec(sqrt, points, closed);
      var total := EndOf(CenterlineSegments(sqrt, points, closed));
      assert total == TrackLength(sqrt, points, closed);
      hide IsSqrt, CenterlineSegments, TrackLength, Distance;
      if total > 0.0 {
        StepCountSpec(total, step, 1);
        TimesUnits(step);
      }
    }
  }

  /** The accumulated distances start at 0, grow by exactly one step (less at most at the end of an open
      line), and never exceed the total, which an open line ends on and a closed one stops one step short of. */
  ghost predicate EvenlySpaced(samples: seq<SampledPoint>, total: real, step: real, closed: bool) {
    && |samples| >= 2
    && samples[0].accumulated == 0.0
    && (forall k :: 0 <= k < |samples| - 1 ==> 0.0 < Gap(samples, k) <= step)
    && (forall k :: 0 <= k < |samples| - (if closed then 1 else 2) ==> Gap(samples, k) == step)
    && (forall k :: 0 <= k < |samples| ==> 0.0 <= samples[k].accumulated <= total)
    && (if closed then total - step <= samples[|samples| - 1].accumulated < total
        else samples[|samples| - 1].accumulated == total)
  }

  function Gap(samples: seq<SampledPoint>, k: nat): real
    requires k + 1 < |samples|
  {
    samples[k + 1].accumulated - samples[k].accumulated
  }

  lemma ResampledEvenly(sqrt: real -> real, points: seq<Point>, step: real, closed: bool)
    requires IsSqrt(sqrt)
    ensures var r := Resampled(sqrt, points, step, closed);
            r.Ok? ==>
              && EvenlySpaced(r.value.0, r.value.1, step, closed)
              && |points| >= 2 && r.value.1 == TrackLength(sqrt, points, closed)
  {
    if Resampled(sqrt, points, step, closed).Ok? {
      ResampledSpacing(sqrt, points, step, closed);
    }
  }

  lemma ResampledSpacing(sqrt: real -> real, points: seq<Point>, step: real, closed: bool)
    requires IsSqrt(sqrt)
    requires Resampled(sqrt, points, step, closed).Ok?
    ensures var (samples, total) := Resampled(sqrt, points, step, closed).value;
            EvenlySpaced(samples, total, step, closed) && total == TrackLength(sqrt, points, closed)
  {
    var segments := CenterlineSegments(sqrt, points, closed);
    CenterlineSegmentsSpec(sqrt, points, closed);
    hide IsSqrt, CenterlineSegments, Distance, EvenlySpaced, Targets, SamplesAt, StepCount, IsChain;
    var total := EndOf(segments);
    TargetsEven(segments, total, step, closed);
  }

  lemma TargetsEven(segments: seq<Segment>, total: real, step: real, closed: bool)
    requires total > 0.0 && step > 0.0 && |Targets(total, step, closed)| >= 2
    ensures EvenlySpaced(SamplesAt(segments, Targets(total, step, closed)), total, step, closed)
  {
    var n := StepCount(total, step);
    var targets := Targets(total, step, closed);
    hide Interpolated, StepCount;
    var samples := SamplesAt(segments, targets);
    forall k | 0 <= k < n
      ensures 0.0 <= Multiple(step, k) < total && Multiple(step, k + 1) == Multiple(step, k) + step
      ensures samples[k].accumulated == Multiple(step, k)
    {
      StepCountSpec(total, step, k);
      MultipleNext(step, k);
      TimesSign(k as real, step);
    }
    StepCountSpec(total, step, n);
    TimesUnits(step);
    hide Times;
    assert samples[0].accumulated == Multiple(step, 0);
    assert samples[n - 1].accumulated == Multiple(step, n - 1);
    hide Multiple;
    forall k | 0 <= k < |samples| - 1
      ensures 0.0 < Gap(samples, k) <= step && (k < n - 1 ==> Gap(samples, k) == step)
    {
      if k < n - 1 {
        assert samples[k + 1].accumulated == Multiple(step, k + 1);
      }
    }
  }

  /** Each sample is the point of the polyline's segments at exactly its accumulated distance. */
  lemma ResampledOnLine(sqrt: real -> real, points: seq<Point>, step: real, closed: bool, k: nat)
    requires IsSqrt(sqrt)
    requires Resampled(sqrt, points, step, closed).Ok?
    requires k < |Resampled(sqrt, points, step, closed).value.0|
    ensures var sample := Resampled(sqrt, points, step, closed).value.0[k];
            && AtArcLength(CenterlineSegments(sqrt, points, closed), sample.accumulated, sample.point)
            && sample.distance == sample.accumulated
  {
    CenterlineSegmentsSpec(sqrt, points, closed);
    ResampledEvenly(sqrt, points, step, closed);
    var sample := Resampled(sqrt, points, step, closed).value.0[k];
    hide IsSqrt, CenterlineSegments, Distance;
    InterpolatedAtArcLength(sqrt, CenterlineSegments(sqrt, points, closed), points[0],
                            if closed then points[0] else points[|points| - 1], sample.accumulated);
  }

  /** The sample after the `k`-th is one step on, or at the end of an open line; a closed line has no more samples
      when the next step would reach its end. */
  lemma ConsecutiveDistances(sqrt: real -> real, points: seq<Point>, step: real, closed: bool, k: nat)
    requires IsSqrt(sqrt)
    requires Resampled(sqrt, points, step, closed).Ok?
    ensures var (samples, total) := Resampled(sqrt, points, step, closed).value;
            && (k + 1 < |samples| <==> HasNext(total, step, closed, k))
            && (k + 1 < |samples| ==>
                  && samples[k].accumulated == Multiple(step, k)
                  && samples[k + 1].accumulated == Min(Multiple(step, k + 1), total))
  {
    var segments := CenterlineSegments(sqrt, points, closed);
    var total := EndOf(segments);
    StepCountSpec(total, step, k);
    StepCountSpec(total, step, k + 1);
    hide IsSqrt, CenterlineSegments, Interpolated, StepCount, Multiple;
  }

  predicate HasNext(total: real, step: real, closed: bool, k: nat) {
    Multiple(step, k) < total && (closed ==> Multiple(step, k + 1) < total)
  }

  /** Two consecutive samples coincide exactly if the polyline passes one point at both distances. */
  lemma CoincideExactly(sqrt: real -> real, points: seq<Point>, step: real, closed: bool, k: nat)
    requires IsSqrt(sqrt)
    requires Resampled(sqrt, points, step, closed).Ok?
    requires k + 1 < |Resampled(sqrt, points, step, closed).value.0|
    ensures var samples := Resampled(sqrt, points, step, closed).value.0;
            samples[k].point == samples[k + 1].point
            <==> Revisits(CenterlineSegments(sqrt, points, closed), samples[k].accumulated, samples[k + 1].accumulated)
  {
    var samples := Resampled(sqrt, points, step, closed).value.0;
    var segments := CenterlineSegments(sqrt, points, closed);
    CenterlineSegmentsSpec(sqrt, points, closed);
    ResampledOnLine(sqrt, points, step, closed, k);
    ResampledOnLine(sqrt, points, step, closed, k + 1);
    hide IsSqrt, CenterlineSegments, Resampled, AtArcLength, IsChain;
    if Revisits(segments, samples[k].accumulated, samples[k + 1].accumulated) {
      var q :| AtArcLength(segments, samples[k].accumulated, q) && AtArcLength(segments, samples[k + 1].accumulated, q);
      var to := if closed then points[0] else points[|points| - 1];
      AtArcLengthUnique(sqrt, segments, points[0], to, samples[k].accumulated, samples[k].point, q);
      AtArcLengthUnique(sqrt, segments, points[0], to, samples[k + 1].accumulated, samples[k + 1].point, q);
    }
  }
}
