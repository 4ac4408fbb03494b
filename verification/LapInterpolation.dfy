/** The values of lap samples: on the straight line between the two kept frames around their distance. */
module LapInterpolation {
  import opened Prelude
  import opened Reals
  import opened Telemetry
  import opened Laps
  import Ordering
  import opened LapSamples

  // ----- lines -----

  /** At `d` the line that is `a` at `ld` and `b` at `rd` has the value `v`. */
  ghost predicate OnLine(ld: real, d: real, rd: real, a: real, v: real, b: real) {
    Times(rd - ld, v - a) == Times(d - ld, b - a)
  }

  /** The same for a channel that a frame may lack: absent unless both frames have it. */
  ghost predicate OnOptionalLine(ld: real, d: real, rd: real, a: Option<real>, v: Option<real>, b: Option<real>) {
    if a.Some? && b.Some? then v.Some? && OnLine(ld, d, rd, a.value, v.value, b.value) else v == None
  }

  /** The integer nearest to `v`; of two that are equally near, the one farther from zero. */
  ghost predicate IsNearest(n: int, v: real) {
    && -0.5 <= n as real - v <= 0.5
    && (n as real - v == 0.5 ==> v > 0.0)
    && (n as real - v == -0.5 ==> v < 0.0)
  }

  /** The sample lies on the lines between the frames, with the timestamp rounded and the gear of the nearer one. */
  ghost predicate LiesBetween(sample: LapSample, a: Frame, b: Frame)
    requires a.lapDistanceMeters.Some? && b.lapDistanceMeters.Some?
  {
    var ld, d, rd := DistanceOf(a), sample.distanceMeters as real, DistanceOf(b);
    && OnLine(ld, d, rd, a.speedMps, sample.speedMps, b.speedMps)
    && OnLine(ld, d, rd, a.rpm, sample.rpm, b.rpm)
    && OnLine(ld, d, rd, a.throttle, sample.throttle, b.throttle)
    && OnLine(ld, d, rd, a.brake, sample.brake, b.brake)
    && OnLine(ld, d, rd, a.steering, sample.steering, b.steering)
    && OnLine(ld, d, rd, a.fuelLiters, sample.fuelLiters, b.fuelLiters)
    && OnOptionalLine(ld, d, rd, a.yawRadians, sample.yawRadians, b.yawRadians)
    && OnOptionalLine(ld, d, rd, a.yawRate, sample.yawRate, b.yawRate)
    && OnOptionalLine(ld, d, rd, a.wheelSpeedFL, sample.wheelSpeedFL, b.wheelSpeedFL)
    && OnOptionalLine(ld, d, rd, a.wheelSpeedFR, sample.wheelSpeedFR, b.wheelSpeedFR)
    && OnOptionalLine(ld, d, rd, a.wheelSpeedRL, sample.wheelSpeedRL, b.wheelSpeedRL)
    && OnOptionalLine(ld, d, rd, a.wheelSpeedRR, sample.wheelSpeedRR, b.wheelSpeedRR)
    && sample.gear == (if 2.0 * (d - ld) < rd - ld then a.gear else b.gear)
    && exists t: real :: IsNearest(sample.timestampUnixMs, t)
                         && OnLine(ld, d, rd, a.timestampUnixMs as real, t, b.timestampUnixMs as real)
  }

  // ----- interpolation follows the line -----

  lemma InterpolatedOnLine(ld: real, d: real, rd: real, a: real, b: real, ratio: real)
    requires Times(rd - ld, ratio) == d - ld
    ensures OnLine(ld, d, rd, a, Interpolate(a, b, ratio), b)
  {
    var w := rd - ld;
    TimesAssociates(w, ratio, b - a);
    TimesCommutes(ratio, b - a);
    hide Times;
  }

  lemma OptionalOnLine(ld: real, d: real, rd: real, a: Option<real>, b: Option<real>, ratio: real)
    requires Times(rd - ld, ratio) == d - ld && 0.0 < ratio < 1.0
    ensures OnOptionalLine(ld, d, rd, a, InterpolateOptional(a, b, ratio), b)
  {
    if a.Some? && b.Some? {
      InterpolatedOnLine(ld, d, rd, a.value, b.value, ratio);
    }
    hide Times, Interpolate, OnLine;
  }

  lemma RoundIsNearest(v: real)
    ensures IsNearest(Round(v), v)
  {
  }

  /** The ratio of a distance strictly between two frames, known by its product with their distance. */
  lemma RatioBetween(d: real, a: Frame, b: Frame) returns (ratio: real)
    requires a.lapDistanceMeters.Some? && b.lapDistanceMeters.Some? && DistanceOf(a) < d < DistanceOf(b)
    ensures ratio == InterpolationRatio(d, a, b) && 0.0 < ratio < 1.0
    ensures Times(DistanceOf(b) - DistanceOf(a), ratio) == d - DistanceOf(a)
    ensures ratio < 0.5 <==> 2.0 * (d - DistanceOf(a)) < DistanceOf(b) - DistanceOf(a)
  {
    var w := DistanceOf(b) - DistanceOf(a);
    ratio := Quotient(d - DistanceOf(a), w);
    TimesUnits(w);
    TimesHalf(w);
    hide Times;
    if ratio <= 0.0 { TimesOrder(w, ratio, 0.0); }
    if ratio >= 1.0 { TimesOrder(w, 1.0, ratio); }
    if ratio < 0.5 { TimesStrict(w, ratio, 0.5); } else { TimesOrder(w, 0.5, ratio); }
  }

  lemma TimesHalf(w: real)
    ensures 2.0 * Times(w, 0.5) == w
  {
  }

  lemma SampleLiesBetween(lapId: string, distanceMeters: int, a: Frame, b: Frame)
    requires a.lapDistanceMeters.Some? && b.lapDistanceMeters.Some?
    requires DistanceOf(a) < distanceMeters as real < DistanceOf(b)
    ensures LiesBetween(SampleFor(lapId, distanceMeters, a, b), a, b)
  {
    var ld, d, rd := DistanceOf(a), distanceMeters as real, DistanceOf(b);
    var ratio := RatioBetween(d, a, b);
    InterpolatedOnLine(ld, d, rd, a.speedMps, b.speedMps, ratio);
    InterpolatedOnLine(ld, d, rd, a.rpm, b.rpm, ratio);
    InterpolatedOnLine(ld, d, rd, a.throttle, b.throttle, ratio);
    InterpolatedOnLine(ld, d, rd, a.brake, b.brake, ratio);
    InterpolatedOnLine(ld, d, rd, a.steering, b.steering, ratio);
    InterpolatedOnLine(ld, d, rd, a.fuelLiters, b.fuelLiters, ratio);
    OptionalOnLine(ld, d, rd, a.yawRadians, b.yawRadians, ratio);
    OptionalOnLine(ld, d, rd, a.yawRate, b.yawRate, ratio);
    OptionalOnLine(ld, d, rd, a.wheelSpeedFL, b.wheelSpeedFL, ratio);
    OptionalOnLine(ld, d, rd, a.wheelSpeedFR, b.wheelSpeedFR, ratio);
    OptionalOnLine(ld, d, rd, a.wheelSpeedRL, b.wheelSpeedRL, ratio);
    OptionalOnLine(ld, d, rd, a.wheelSpeedRR, b.wheelSpeedRR, ratio);
    var from, to := a.timestampUnixMs as real, b.timestampUnixMs as real;
    InterpolatedOnLine(ld, d, rd, from, to, ratio);
    RoundIsNearest(Interpolate(from, to, ratio));
    hide OnLine, OnOptionalLine, Interpolate, InterpolateOptional, InterpolationRatio, Round, IsNearest, Times;
  }

  // ----- the samples of a lap -----

  lemma EnclosedOnce(kept: seq<Frame>, d: real, i: nat, k: nat)
    requires IncreasingDistances(kept) && Encloses(kept, k, d) && i + 1 < |kept|
    requires DistanceOf(kept[i]) < d < DistanceOf(kept[i + 1])
    ensures k == i
  {
    if k < i {
      DistancesIncrease(kept, k + 1, i);
    } else if k > i {
      DistancesIncrease(kept, i + 1, k);
    }
  }

  /** A sample whose distance lies strictly between two consecutive kept frames lies on the lines between them. */
  lemma LapSampleInterpolates(lapId: string, lapNumber: int, frames: seq<Frame>, step: int, j: nat, i: nat)
    requires LapSamplesOf(lapId, lapNumber, frames, step).Some?
    requires j < |LapSamplesOf(lapId, lapNumber, frames, step).value|
    requires UsableFrames(lapNumber, frames).Some? && i + 1 < |UsableFrames(lapNumber, frames).value|
    requires var sample, kept := LapSamplesOf(lapId, lapNumber, frames, step).value[j],
                                 UsableFrames(lapNumber, frames).value;
             DistanceOf(kept[i]) < sample.distanceMeters as real < DistanceOf(kept[i + 1])
    ensures var sample, kept := LapSamplesOf(lapId, lapNumber, frames, step).value[j],
                                UsableFrames(lapNumber, frames).value;
            sample.lapId == lapId && LiesBetween(sample, kept[i], kept[i + 1])
  {
    var samples, kept := LapSamplesOf(lapId, lapNumber, frames, step).value, UsableFrames(lapNumber, frames).value;
    var first := SamplesAreComplete(lapId, lapNumber, frames, step);
    hide LapSamplesOf, UsableFrames, CompleteSamples, LiesBetween, SampleFor, IncreasingDistances, SamplesUpTo;
    var k := SampleIndex(lapId, kept, step, samples, first, j);
    EnclosedOnce(kept, samples[j].distanceMeters as real, i, k);
    SampleLiesBetween(lapId, samples[j].distanceMeters, kept[i], kept[i + 1]);
    SampleOf(lapId, samples[j].distanceMeters, kept[i], kept[i + 1]);
  }

  lemma SampleOf(lapId: string, distanceMeters: int, a: Frame, b: Frame)
    requires a.lapDistanceMeters.Some? && b.lapDistanceMeters.Some?
    ensures SampleFor(lapId, distanceMeters, a, b).lapId == lapId
  {
  }

  // ----- which distances are kept -----

  lemma {:induction false} RunsKeepDistances(frames: seq<Frame>, f: Frame)
    requires Measured(frames) && f in frames
    ensures exists g :: g in LastOfRuns(frames) && g.lapDistanceMeters == f.lapDistanceMeters
  {
    if |frames| >= 2 && DistanceOf(frames[0]) == DistanceOf(frames[1]) {
      RunsKeepDistances(frames[1..], if f == frames[0] then frames[1] else f);
    } else if f != frames[0] {
      RunsKeepDistances(frames[1..], f);
      var g :| g in LastOfRuns(frames[1..]) && g.lapDistanceMeters == f.lapDistanceMeters;
      assert g in LastOfRuns(frames);
    } else {
      assert f in LastOfRuns(frames);
    }
  }

  /** Every distance at which the lap has a frame has a kept frame, and every kept frame is one of the lap. */
  lemma KeptDistances(lapNumber: int, frames: seq<Frame>, f: Frame)
    requires UsableFrames(lapNumber, frames).Some? && f.lapNumber == lapNumber
    ensures f in frames ==>
              exists g :: g in UsableFrames(lapNumber, frames).value && g.lapDistanceMeters == f.lapDistanceMeters
    ensures f in UsableFrames(lapNumber, frames).value ==> f in frames
  {
    var lapFrames := LapFrames(frames, lapNumber);
    var sorted := Ordering.SortBy(Earlier, lapFrames);
    Ordering.PermutationMembers(sorted, lapFrames);
    KeptAreFrames(lapNumber, frames);
    hide Ordering.SortBy, LastOfRuns, Usable;
    if f in frames {
      assert f in lapFrames;
      RunsKeepDistances(sorted, f);
    }
  }
}
