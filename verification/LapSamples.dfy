/** Resampling one lap's frames at a fixed distance step. */
module LapSamples {
  import opened Prelude
  import opened Reals
  import opened Telemetry
  import opened Ordering
  import opened Laps

  datatype LapSample = LapSample(
    lapId: string,
    distanceMeters: int,
    timestampUnixMs: int,
    speedMps: real,
    rpm: real,
    gear: int,
    throttle: real,
    brake: real,
    steering: real,
    fuelLiters: real,
    yawRadians: Option<real>,
    yawRate: Option<real>,
    wheelSpeedFL: Option<real>,
    wheelSpeedFR: Option<real>,
    wheelSpeedRL: Option<real>,
    wheelSpeedRR: Option<real>)

  // ----- distances -----

  predicate Measured(frames: seq<Frame>) {
    forall i :: 0 <= i < |frames| ==> frames[i].lapDistanceMeters.Some?
  }

  function DistanceOf(f: Frame): real
    requires f.lapDistanceMeters.Some?
  {
    f.lapDistanceMeters.value
  }

  /** The distances a lap must have to be sampled: all present, none negative, none smaller than the one before. */
  ghost predicate UsableDistances(frames: seq<Frame>) {
    && Measured(frames)
    && (forall i :: 0 <= i < |frames| ==> DistanceOf(frames[i]) >= 0.0)
    && (forall i :: 0 < i < |frames| ==> DistanceOf(frames[i - 1]) <= DistanceOf(frames[i]))
  }

  method CheckDistances(frames: seq<Frame>) returns (ok: bool)
    ensures ok <==> UsableDistances(frames)
  {
    for i := 0 to |frames|
      invariant UsableDistances(frames[..i])
    {
      var frame := frames[i];
      assert frames[..i + 1][i] == frame && frames[..i + 1][..i] == frames[..i];
      if frame.lapDistanceMeters.None? || DistanceOf(frame) < 0.0 {
        return false;
      }
      if i > 0 && DistanceOf(frame) < DistanceOf(frames[i - 1]) {
        return false;
      }
    }
    assert frames[..|frames|] == frames;
    return true;
  }

  // ----- collapsing equal distances in place -----

  /** The last frame of each run of frames at the same distance. */
  function LastOfRuns(frames: seq<Frame>): seq<Frame>
    requires Measured(frames)
  {
    if frames == [] then []
    else if |frames| >= 2 && DistanceOf(frames[0]) == DistanceOf(frames[1]) then LastOfRuns(frames[1..])
    else [frames[0]] + LastOfRuns(frames[1..])
  }

  /** Overwrites the front of the frames with the collapsed ones: the result shares their storage. */
  method CollapseDuplicateDistanceFrames(frames: array<Frame>) returns (n: nat)
    requires Measured(frames[..])
    modifies frames
    ensures n <= frames.Length
    ensures frames[..n] == LastOfRuns(old(frames[..]))
  {
    ghost var all := frames[..];
    if frames.Length == 0 {
      return 0;
    }
    n := 1;
    for i := 1 to frames.Length
      invariant 1 <= n <= i
      invariant forall k :: i <= k < frames.Length ==> frames[k] == all[k]
      invariant frames[n - 1] == all[i - 1]
      invariant frames[..n] == LastOfRuns(all[..i])
    {
      LastOfRunsAppend(all[..i], all[i]);
      assert all[..i] + [all[i]] == all[..i + 1];
      var last := frames[n - 1];
      if DistanceOf(frames[i]) == DistanceOf(last) {
        frames[n - 1] := frames[i];
        continue;
      }
      frames[n] := frames[i];
      n := n + 1;
    }
    assert all[..frames.Length] == all;
  }

  /** One more frame replaces the last kept one at the same distance, and otherwise follows it. */
  lemma {:induction false} LastOfRunsAppend(frames: seq<Frame>, f: Frame)
    requires Measured(frames) && f.lapDistanceMeters.Some? && frames != []
    ensures LastOfRuns(frames) != []
    ensures var kept, last := LastOfRuns(frames), frames[|frames| - 1];
            LastOfRuns(frames + [f])
              == (if DistanceOf(f) == DistanceOf(last) then kept[..|kept| - 1] else kept) + [f]
  {
    var all := frames + [f];
    if |frames| == 1 {
      assert all[1..] == [f] && [f][1..] == [];
    } else {
      assert all[1..] == frames[1..] + [f];
      LastOfRunsAppend(frames[1..], f);
    }
  }

  ghost predicate IncreasingDistances(frames: seq<Frame>) {
    Measured(frames) && forall i :: 0 < i < |frames| ==> DistanceOf(frames[i - 1]) < DistanceOf(frames[i])
  }

  /** Collapsing keeps the first distance and the last frame, and leaves strictly increasing distances. */
  lemma {:induction false} LastOfRunsSpec(frames: seq<Frame>)
    requires UsableDistances(frames) && frames != []
    ensures var kept := LastOfRuns(frames);
            && kept != [] && IncreasingDistances(kept)
            && DistanceOf(kept[0]) == DistanceOf(frames[0])
            && kept[|kept| - 1] == frames[|frames| - 1]
  {
    if |frames| >= 2 {
      var rest := frames[1..];
      UsableTail(frames);
      LastOfRunsSpec(rest);
      assert rest[0] == frames[1] && rest[|rest| - 1] == frames[|frames| - 1];
      IncreasingInFront(frames[0], LastOfRuns(rest));
      hide IncreasingDistances;
    }
  }

  lemma UsableTail(frames: seq<Frame>)
    requires UsableDistances(frames) && |frames| >= 2
    ensures UsableDistances(frames[1..]) && DistanceOf(frames[0]) <= DistanceOf(frames[1])
  {
    var rest := frames[1..];
    assert forall i :: 0 <= i < |rest| ==> rest[i] == frames[i + 1];
    forall i | 0 < i < |rest|
      ensures DistanceOf(rest[i - 1]) <= DistanceOf(rest[i])
    {
      assert DistanceOf(frames[i + 1 - 1]) <= DistanceOf(frames[i + 1]);
    }
  }

  lemma IncreasingInFront(f: Frame, kept: seq<Frame>)
    requires f.lapDistanceMeters.Some? && kept != [] && IncreasingDistances(kept)
    ensures DistanceOf(f) < DistanceOf(kept[0]) ==> IncreasingDistances([f] + kept)
  {
  }

  lemma {:induction false} LastOfRunsInTimeOrder(frames: seq<Frame>)
    requires Measured(frames) && Sorted(Earlier, frames)
    ensures Sorted(Earlier, LastOfRuns(frames))
    ensures forall f :: f in LastOfRuns(frames) ==> f in frames
  {
    if frames != [] {
      var rest := LastOfRuns(frames[1..]);
      LastOfRunsInTimeOrder(frames[1..]);
      forall j | 0 <= j < |rest|
        ensures !Earlier(rest[j], frames[0])
      {
        assert rest[j] in frames[1..];
      }
    }
  }

  // ----- bracketing -----

  /** The pair of frames that the search starting at frame `i` finds around `distance`. */
  function BracketFrom(frames: seq<Frame>, distance: real, i: nat): Option<(Frame, Frame)>
    requires Measured(frames) && i < |frames|
    decreases |frames| - i
  {
    var left := frames[i];
    if distance == DistanceOf(left) then Some((left, left))
    else if i == |frames| - 1 then None
    else
      var right := frames[i + 1];
      if DistanceOf(left) <= distance <= DistanceOf(right) && DistanceOf(right) > DistanceOf(left)
      then Some((left, right))
      else BracketFrom(frames, distance, i + 1)
  }

  method BracketFrames(frames: seq<Frame>, distance: real) returns (r: Option<(Frame, Frame)>)
    requires Measured(frames) && frames != []
    ensures r == BracketFrom(frames, distance, 0)
  {
    for i := 0 to |frames| - 1
      invariant BracketFrom(frames, distance, 0) == BracketFrom(frames, distance, i)
    {
      var left, right := frames[i], frames[i + 1];
      var ld, rd := DistanceOf(left), DistanceOf(right);
      if distance == ld {
        return Some((left, left));
      }
      if distance >= ld && distance <= rd && rd > ld {
        return Some((left, right));
      }
    }
    var last := frames[|frames| - 1];
    if distance == DistanceOf(last) {
      return Some((last, last));
    }
    return None;
  }

  /** Frame `i` and the next one enclose `distance`, the earlier pair where two do. */
  ghost predicate Encloses(frames: seq<Frame>, i: nat, distance: real)
    requires Measured(frames)
  {
    && i + 1 < |frames|
    && DistanceOf(frames[i]) <= distance <= DistanceOf(frames[i + 1])
    && (i > 0 ==> DistanceOf(frames[i]) < distance)
  }

  function BracketAt(frames: seq<Frame>, i: nat, distance: real): (Frame, Frame)
    requires Measured(frames) && i + 1 < |frames|
  {
    if distance == DistanceOf(frames[i]) then (frames[i], frames[i]) else (frames[i], frames[i + 1])
  }

  /** Within the covered distances bracketing never fails, and finds the enclosing pair. */
  lemma {:induction false} BracketFound(frames: seq<Frame>, distance: real, from: nat) returns (i: nat)
    requires IncreasingDistances(frames) && from + 1 < |frames|
    requires DistanceOf(frames[from]) <= distance <= DistanceOf(frames[|frames| - 1])
    requires from > 0 ==> DistanceOf(frames[from]) < distance
    ensures Encloses(frames, i, distance)
    ensures BracketFrom(frames, distance, from) == Some(BracketAt(frames, i, distance))
    decreases |frames| - from
  {
    assert DistanceOf(frames[from + 1 - 1]) < DistanceOf(frames[from + 1]);
    if distance <= DistanceOf(frames[from + 1]) {
      i := from;
    } else {
      i := BracketFound(frames, distance, from + 1);
    }
  }

  // ----- interpolation -----

  function InterpolationRatio(distance: real, left: Frame, right: Frame): real
    requires left.lapDistanceMeters.Some? && right.lapDistanceMeters.Some?
  {
    var ld, rd := DistanceOf(left), DistanceOf(right);
    if rd == ld then 0.0 else (distance - ld) / (rd - ld)
  }

  function Interpolate(left: real, right: real, ratio: real): real {
    left + Times(right - left, ratio)
  }

  function InterpolateOptional(left: Option<real>, right: Option<real>, ratio: real): Option<real> {
    if ratio <= 0.0 then left
    else if ratio >= 1.0 then right
    else if left.None? || right.None? then None
    else Some(Interpolate(left.value, right.value, ratio))
  }

  /** `math.Round`: to the nearest integer, halves away from zero. */
  function Round(v: real): int {
    if v >= 0.0 then (v + 0.5).Floor else -((-v + 0.5).Floor)
  }

  function InterpolateTime(left: int, right: int, ratio: real): int {
    Round(Interpolate(left as real, right as real, ratio))
  }

  function NearestGear(left: int, right: int, ratio: real): int {
    if ratio < 0.5 then left else right
  }

  function SampleFor(lapId: string, distanceMeters: int, left: Frame, right: Frame): LapSample
    requires left.lapDistanceMeters.Some? && right.lapDistanceMeters.Some?
  {
    var ratio := InterpolationRatio(distanceMeters as real, left, right);
    LapSample(
      lapId,
      distanceMeters,
      InterpolateTime(left.timestampUnixMs, right.timestampUnixMs, ratio),
      Interpolate(left.speedMps, right.speedMps, ratio),
      Interpolate(left.rpm, right.rpm, ratio),
      NearestGear(left.gear, right.gear, ratio),
      Interpolate(left.throttle, right.throttle, ratio),
      Interpolate(left.brake, right.brake, ratio),
      Interpolate(left.steering, right.steering, ratio),
      Interpolate(left.fuelLiters, right.fuelLiters, ratio),
      InterpolateOptional(left.yawRadians, right.yawRadians, ratio),
      InterpolateOptional(left.yawRate, right.yawRate, ratio),
      InterpolateOptional(left.wheelSpeedFL, right.wheelSpeedFL, ratio),
      InterpolateOptional(left.wheelSpeedFR, right.wheelSpeedFR, ratio),
      InterpolateOptional(left.wheelSpeedRL, right.wheelSpeedRL, ratio),
      InterpolateOptional(left.wheelSpeedRR, right.wheelSpeedRR, ratio))
  }

  // ----- the sample loop -----

  /** The distance of the k-th bucket. */
  function Bucket(step: int, k: int): int {
    step * k
  }

  lemma BucketNext(step: int, k: int)
    ensures Bucket(step, k + 1) == Bucket(step, k) + step && Bucket(step, 0) == 0
  {
  }

  lemma {:induction false} BucketOrder(step: int, a: int, b: int)
    requires step > 0 && a <= b
    ensures Bucket(step, a) <= Bucket(step, b) && (a < b ==> Bucket(step, a) + step <= Bucket(step, b))
    decreases b - a
  {
    if a < b {
      BucketOrder(step, a, b - 1);
      BucketNext(step, b - 1);
    }
  }

  /** The samples of the buckets 0, step, 2*step, ... up to the k-th, as far as the frames cover them. */
  function SamplesUpTo(lapId: string, frames: seq<Frame>, step: int, k: nat): seq<LapSample>
    requires Measured(frames) && frames != []
  {
    if k == 0 then []
    else
      var bucket := Bucket(step, k - 1);
      SamplesUpTo(lapId, frames, step, k - 1)
      + (if bucket as real < DistanceOf(frames[0]) then []
         else
           match BracketFrom(frames, bucket as real, 0)
           case None => []
           case Some(pair) =>
             BracketMeasured(frames, bucket as real, 0);
             [SampleFor(lapId, bucket, pair.0, pair.1)])
  }

  lemma {:induction false} BracketMeasured(frames: seq<Frame>, distance: real, i: nat)
    requires Measured(frames) && i < |frames|
    ensures var r := BracketFrom(frames, distance, i);
            r.Some? ==> r.value.0.lapDistanceMeters.Some? && r.value.1.lapDistanceMeters.Some?
    decreases |frames| - i
  {
    if i < |frames| - 1 {
      BracketMeasured(frames, distance, i + 1);
    }
  }

  /** The number of buckets from 0 up to and including `last`. */
  function BucketCount(last: real, step: int): nat
    requires step > 0
  {
    if last < 0.0 then 0 else last.Floor / step + 1
  }

  lemma BucketCountSpec(last: real, step: int, k: nat)
    requires step > 0
    ensures k < BucketCount(last, step) <==> Bucket(step, k) as real <= last
  {
    BucketOrder(step, 0, k);
    BucketNext(step, 0);
    if last >= 0.0 {
      var n := last.Floor;
      var q := n / step;
      assert Bucket(step, q) <= n < Bucket(step, q) + step;
      hide Bucket;
      if k <= q {
        BucketOrder(step, k, q);
      } else {
        BucketOrder(step, q, k);
      }
    }
  }

  method SampleBuckets(lapId: string, frames: seq<Frame>, step: int) returns (samples: seq<LapSample>)
    requires Measured(frames) && frames != [] && step > 0
    ensures samples == SamplesUpTo(lapId, frames, step, BucketCount(DistanceOf(frames[|frames| - 1]), step))
  {
    var firstDistance, lastDistance := DistanceOf(frames[0]), DistanceOf(frames[|frames| - 1]);
    samples := [];
    var bucket := 0;
    ghost var k: nat := 0;
    BucketCountSpec(lastDistance, step, 0);
    BucketNext(step, 0);
    hide Bucket, BracketFrom, SampleFor, BucketCount;
    while bucket as real <= lastDistance
      invariant bucket == Bucket(step, k) && k <= BucketCount(lastDistance, step)
      invariant k < BucketCount(lastDistance, step) <==> bucket as real <= lastDistance
      invariant samples == SamplesUpTo(lapId, frames, step, k)
      decreases BucketCount(lastDistance, step) - k
    {
      BucketCountSpec(lastDistance, step, k + 1);
      if bucket as real >= firstDistance {
        var bracket := BracketFrames(frames, bucket as real);
        if bracket.Some? {
          BracketMeasured(frames, bucket as real, 0);
          samples := samples + [SampleFor(lapId, bucket, bracket.value.0, bracket.value.1)];
        }
      }
      BucketNext(step, k);
      bucket := bucket + step;
      k := k + 1;
    }
  }

  /** The lap's frames in time order, one per distance, if they can be sampled. */
  function UsableFrames(lapNumber: int, frames: seq<Frame>): (r: Option<seq<Frame>>)
    ensures r.Some? ==> Measured(r.value)
  {
    var sorted := SortBy(Earlier, LapFrames(frames, lapNumber));
    if Usable(sorted) then MeasuredKept(sorted); Some(LastOfRuns(sorted)) else None
  }

  predicate Usable(frames: seq<Frame>)
    ensures Usable(frames) <==> UsableDistances(frames)
  {
    && (forall i :: 0 <= i < |frames| ==> frames[i].lapDistanceMeters.Some? && DistanceOf(frames[i]) >= 0.0)
    && (forall i :: 0 < i < |frames| ==> DistanceOf(frames[i - 1]) <= DistanceOf(frames[i]))
  }

  lemma {:induction false} MeasuredKept(frames: seq<Frame>)
    requires Measured(frames)
    ensures Measured(LastOfRuns(frames)) && |LastOfRuns(frames)| <= |frames|
  {
    if frames != [] {
      MeasuredKept(frames[1..]);
    }
  }

  function LapSamplesOf(lapId: string, lapNumber: int, frames: seq<Frame>, step: int): Option<seq<LapSample>> {
    if step <= 0 || lapId == "" then None
    else
      match UsableFrames(lapNumber, frames)
      case None => None
      case Some(kept) =>
        if |kept| < 2 || DistanceOf(kept[|kept| - 1]) <= DistanceOf(kept[0]) then None
        else
          var samples := SamplesUpTo(lapId, kept, step, BucketCount(DistanceOf(kept[|kept| - 1]), step));
          if samples == [] then None else Some(samples)
  }

  method BuildLapSamples(lapId: string, lapNumber: int, frames: seq<Frame>, step: int)
    returns (r: Option<seq<LapSample>>)
    ensures r == LapSamplesOf(lapId, lapNumber, frames, step)
  {
    if step <= 0 || lapId == "" {
      return None;
    }
    var kept := UsableLapFrames(lapNumber, frames);
    if kept.None? || |kept.value| < 2 {
      return None;
    }
    var lapFrames := kept.value;
    var lastDistance := DistanceOf(lapFrames[|lapFrames| - 1]);
    if lastDistance <= DistanceOf(lapFrames[0]) {
      return None;
    }
    var samples := SampleBuckets(lapId, lapFrames, step);
    if |samples| == 0 {
      return None;
    }
    return Some(samples);
  }

  method UsableLapFrames(lapNumber: int, frames: seq<Frame>) returns (r: Option<seq<Frame>>)
    ensures r.Some? ==> r == UsableFrames(lapNumber, frames)
    ensures r.None? ==> var kept := UsableFrames(lapNumber, frames); kept.None? || |kept.value| < 2
  {
    var lapFrames := CollectLap(lapNumber, frames);
    var sorted := SortBy(Earlier, lapFrames);
    PermutationMembers(sorted, lapFrames);
    if |lapFrames| < 2 {
      if Usable(sorted) { MeasuredKept(sorted); }
      return None;
    }
    var ok := CheckDistances(sorted);
    if !ok {
      return None;
    }
    var buffer := new Frame[|sorted|](i requires 0 <= i < |sorted| => sorted[i]);
    assert buffer[..] == sorted;
    var n := CollapseDuplicateDistanceFrames(buffer);
    return Some(buffer[..n]);
  }

  // ----- what the samples are -----

  /** The frames that the samples of a lap interpolate between. */
  ghost predicate SamplesFrom(lapId: string, kept: seq<Frame>, step: int, samples: seq<LapSample>) {
    && step > 0 && |kept| >= 2 && IncreasingDistances(kept) && Sorted(Earlier, kept)
    && samples == SamplesUpTo(lapId, kept, step, BucketCount(DistanceOf(kept[|kept| - 1]), step))
  }

  lemma SuccessUses(lapId: string, lapNumber: int, frames: seq<Frame>, step: int)
    requires LapSamplesOf(lapId, lapNumber, frames, step).Some?
    ensures var kept := UsableFrames(lapNumber, frames);
            && kept.Some? && SamplesFrom(lapId, kept.value, step, LapSamplesOf(lapId, lapNumber, frames, step).value)
            && DistanceOf(kept.value[0]) >= 0.0
  {
    var lapFrames := LapFrames(frames, lapNumber);
    var sorted := SortBy(Earlier, lapFrames);
    SortBySorted(Earlier, lapFrames);
    LastOfRunsInTimeOrder(sorted);
    hide SortBy, SamplesUpTo, BucketCount;
    if sorted != [] {
      LastOfRunsSpec(sorted);
    }
  }

  /** `sample` is the sample at `bucket`, interpolated between frame `i` and the next. */
  ghost predicate IsSampleAt(lapId: string, kept: seq<Frame>, bucket: int, sample: LapSample, i: nat)
    requires Measured(kept)
  {
    Encloses(kept, i, bucket as real)
    && var pair := BracketAt(kept, i, bucket as real); sample == SampleFor(lapId, bucket, pair.0, pair.1)
  }

  /** `first` is the first bucket at or after `from`. */
  ghost predicate FirstBucket(first: nat, from: real, step: int) {
    Bucket(step, first) as real >= from && (first > 0 ==> Bucket(step, first - 1) as real < from)
  }

  /** The samples of the first `k` buckets are those from the first covered bucket on, one each. */
  ghost predicate SampleEachBucket(lapId: string, kept: seq<Frame>, step: int, k: nat, first: nat,
                                   samples: seq<LapSample>)
    requires Measured(kept)
  {
    && |samples| == (if k <= first then 0 else k - first)
    && forall j :: 0 <= j < |samples| ==> HasSample(lapId, kept, Bucket(step, first + j), samples[j])
  }

  ghost predicate HasSample(lapId: string, kept: seq<Frame>, bucket: int, sample: LapSample)
    requires Measured(kept)
  {
    exists i :: IsSampleAt(lapId, kept, bucket, sample, i)
  }

  lemma {:induction false} SamplesAreBuckets(lapId: string, kept: seq<Frame>, step: int, k: nat, first: nat)
    requires step > 0 && |kept| >= 2 && IncreasingDistances(kept)
    requires FirstBucket(first, DistanceOf(kept[0]), step)
    requires k <= BucketCount(DistanceOf(kept[|kept| - 1]), step)
    ensures SampleEachBucket(lapId, kept, step, k, first, SamplesUpTo(lapId, kept, step, k))
  {
    if k > 0 {
      var bucket := Bucket(step, k - 1);
      SamplesAreBuckets(lapId, kept, step, k - 1, first);
      BucketCountSpec(DistanceOf(kept[|kept| - 1]), step, k - 1);
      hide BracketFrom, Encloses, BracketAt, SampleFor, BucketCount, Bucket, HasSample;
      if k - 1 >= first {
        BucketOrder(step, first, k - 1);
        CoveredBucket(lapId, kept, bucket);
      } else {
        BucketOrder(step, k - 1, first - 1);
      }
    }
  }

  lemma CoveredBucket(lapId: string, kept: seq<Frame>, bucket: int)
    requires |kept| >= 2 && IncreasingDistances(kept)
    requires DistanceOf(kept[0]) <= bucket as real <= DistanceOf(kept[|kept| - 1])
    ensures var pair := BracketFrom(kept, bucket as real, 0);
            && pair.Some? && pair.value.0.lapDistanceMeters.Some? && pair.value.1.lapDistanceMeters.Some?
            && HasSample(lapId, kept, bucket, SampleFor(lapId, bucket, pair.value.0, pair.value.1))
  {
    var i := BracketFound(kept, bucket as real, 0);
    BracketMeasured(kept, bucket as real, 0);
    var pair := BracketAt(kept, i, bucket as real);
    assert IsSampleAt(lapId, kept, bucket, SampleFor(lapId, bucket, pair.0, pair.1), i);
  }

  lemma {:induction false} FindFirstBucket(from: real, step: int, k: nat) returns (first: nat)
    requires step > 0 && Bucket(step, k) as real >= from
    ensures FirstBucket(first, from, step)
    decreases k
  {
    first := k;
    if k > 0 && Bucket(step, k - 1) as real >= from {
      first := FindFirstBucket(from, step, k - 1);
    }
  }

  lemma SomeBucketBeyond(from: real, step: int) returns (first: nat)
    requires step > 0
    ensures FirstBucket(first, from, step)
  {
    var k: nat := if from < 0.0 then 0 else from.Floor + 1;
    assert Bucket(step, k) >= k;
    first := FindFirstBucket(from, step, k);
  }

  /** The samples are those of consecutive buckets: from the first one that the frames cover to the last. */
  ghost predicate CompleteSamples(lapId: string, kept: seq<Frame>, step: int, samples: seq<LapSample>, first: nat)
    requires Measured(kept) && kept != []
  {
    && samples != []
    && FirstBucket(first, DistanceOf(kept[0]), step)
    && (forall j :: 0 <= j < |samples| ==> samples[j].distanceMeters == Bucket(step, first + j)
                                           && HasSample(lapId, kept, samples[j].distanceMeters, samples[j]))
    && Bucket(step, first + |samples| - 1) as real <= DistanceOf(kept[|kept| - 1])
    && DistanceOf(kept[|kept| - 1]) < Bucket(step, first + |samples|) as real
  }

  /** Every multiple of the step between the first and the last distance has its sample, in increasing order, and
      there is no other sample. */
  lemma SamplesAreComplete(lapId: string, lapNumber: int, frames: seq<Frame>, step: int) returns (first: nat)
    requires LapSamplesOf(lapId, lapNumber, frames, step).Some?
    ensures var samples, kept := LapSamplesOf(lapId, lapNumber, frames, step).value,
                                  UsableFrames(lapNumber, frames).value;
            && SamplesFrom(lapId, kept, step, samples)
            && CompleteSamples(lapId, kept, step, samples, first)
  {
    SuccessUses(lapId, lapNumber, frames, step);
    var samples, kept := LapSamplesOf(lapId, lapNumber, frames, step).value, UsableFrames(lapNumber, frames).value;
    hide UsableFrames, SamplesUpTo;
    assert samples != [];
    hide LapSamplesOf, SamplesFrom, CompleteSamples;
    first := CompleteFrom(lapId, kept, step, samples);
  }

  lemma CompleteFrom(lapId: string, kept: seq<Frame>, step: int, samples: seq<LapSample>) returns (first: nat)
    requires SamplesFrom(lapId, kept, step, samples) && samples != []
    ensures CompleteSamples(lapId, kept, step, samples, first)
  {
    var last := DistanceOf(kept[|kept| - 1]);
    first := SomeBucketBeyond(DistanceOf(kept[0]), step);
    SamplesAreBuckets(lapId, kept, step, BucketCount(last, step), first);
    BucketCountSpec(last, step, first + |samples| - 1);
    BucketCountSpec(last, step, first + |samples|);
    hide SamplesUpTo, BucketCount, Bucket, FirstBucket, IncreasingDistances, Sorted;
    forall j | 0 <= j < |samples|
      ensures samples[j].distanceMeters == Bucket(step, first + j)
    {
      assert HasSample(lapId, kept, Bucket(step, first + j), samples[j]);
    }
  }

  lemma SampleIndex(lapId: string, kept: seq<Frame>, step: int, samples: seq<LapSample>, first: nat, j: nat)
    returns (i: nat)
    requires Measured(kept)
    requires kept != [] && CompleteSamples(lapId, kept, step, samples, first) && j < |samples|
    ensures samples[j].distanceMeters == Bucket(step, first + j)
    ensures IsSampleAt(lapId, kept, samples[j].distanceMeters, samples[j], i)
  {
    hide IsSampleAt, Bucket, FirstBucket;
    assert HasSample(lapId, kept, samples[j].distanceMeters, samples[j]);
    i :| IsSampleAt(lapId, kept, samples[j].distanceMeters, samples[j], i);
  }

  /** Sampling succeeds exactly on a named lap with usable distances, two of them distinct, that reach a bucket. */
  lemma SamplingSucceeds(lapId: string, lapNumber: int, frames: seq<Frame>, step: int, first: nat)
    requires step > 0 ==> UsableFrames(lapNumber, frames).Some? && UsableFrames(lapNumber, frames).value != [] ==>
               FirstBucket(first, DistanceOf(UsableFrames(lapNumber, frames).value[0]), step)
    ensures LapSamplesOf(lapId, lapNumber, frames, step).Some? <==>
              && step > 0 && lapId != ""
              && var kept := UsableFrames(lapNumber, frames);
              && kept.Some? && |kept.value| >= 2
              && (Bucket(step, first) as real) <= DistanceOf(kept.value[|kept.value| - 1])
  {
    var kept := UsableFrames(lapNumber, frames);
    if step > 0 && kept.Some? && |kept.value| >= 2 {
      KeptIncreases(lapNumber, frames);
      var last := DistanceOf(kept.value[|kept.value| - 1]);
      SamplesAreBuckets(lapId, kept.value, step, BucketCount(last, step), first);
      BucketCountSpec(last, step, first);
      hide SamplesUpTo, BucketCount, Bucket, UsableFrames, HasSample;
    }
  }

  lemma KeptIncreases(lapNumber: int, frames: seq<Frame>)
    requires UsableFrames(lapNumber, frames).Some?
    ensures var kept := UsableFrames(lapNumber, frames).value;
            IncreasingDistances(kept) && (|kept| >= 2 ==> DistanceOf(kept[0]) < DistanceOf(kept[|kept| - 1]))
  {
    var sorted := SortBy(Earlier, LapFrames(frames, lapNumber));
    if sorted != [] {
      LastOfRunsSpec(sorted);
      hide SortBy, LapFrames;
      var kept := LastOfRuns(sorted);
      DistancesIncrease(kept, 0, |kept| - 1);
    }
  }

  lemma {:induction false} DistancesIncrease(kept: seq<Frame>, i: nat, j: nat)
    requires IncreasingDistances(kept) && i <= j < |kept|
    ensures DistanceOf(kept[i]) <= DistanceOf(kept[j]) && (i < j ==> DistanceOf(kept[i]) < DistanceOf(kept[j]))
    decreases j
  {
    if i < j {
      DistancesIncrease(kept, i, j - 1);
      assert DistanceOf(kept[j - 1]) < DistanceOf(kept[j]);
    }
  }

  // ----- channels and time -----

  /** Interpolation stays between the two values, and reaches them at the ends. */
  lemma InterpolateBetween(left: real, right: real, ratio: real, lo: real, hi: real)
    requires 0.0 <= ratio <= 1.0
    requires lo <= left <= hi && lo <= right <= hi
    ensures lo <= Interpolate(left, right, ratio) <= hi
  {
    var d := right - left;
    TimesUnits(d);
    TimesCommutes(d, ratio);
    TimesCommutes(d, 1.0);
    if d >= 0.0 {
      TimesOrder(d, 0.0, ratio);
      TimesOrder(d, ratio, 1.0);
    } else {
      TimesOrder(-d, 0.0, ratio);
      TimesOrder(-d, ratio, 1.0);
      TimesNegated(d, ratio);
      TimesUnits(-d);
    }
    hide Times;
  }

  lemma InterpolateEnds(left: real, right: real)
    ensures Interpolate(left, right, 0.0) == left && Interpolate(left, right, 1.0) == right
  {
    TimesUnits(right - left);
  }

  lemma RatioRange(kept: seq<Frame>, i: nat, d: real)
    requires IncreasingDistances(kept) && Encloses(kept, i, d)
    ensures var pair := BracketAt(kept, i, d);
            var ratio := InterpolationRatio(d, pair.0, pair.1);
            && 0.0 <= ratio <= 1.0
            && (d == DistanceOf(kept[i]) ==> ratio == 0.0 && pair == (kept[i], kept[i]))
            && (d == DistanceOf(kept[i + 1]) ==> ratio == 1.0 && pair == (kept[i], kept[i + 1]))
            && (d > DistanceOf(kept[i]) ==> pair == (kept[i], kept[i + 1]))
  {
    var ld, rd := DistanceOf(kept[i]), DistanceOf(kept[i + 1]);
    assert DistanceOf(kept[i + 1 - 1]) < DistanceOf(kept[i + 1]);
    if d > ld {
      var ratio := Quotient(d - ld, rd - ld);
      TimesUnits(rd - ld);
      if ratio < 0.0 { TimesStrict(rd - ld, ratio, 0.0); }
      if ratio > 1.0 { TimesStrict(rd - ld, 1.0, ratio); }
      if ratio < 1.0 { TimesStrict(rd - ld, ratio, 1.0); }
      hide Times;
    }
  }

  /** Two percentages of a frame pair interpolate to a percentage. */
  lemma SampleStaysInRange(lapId: string, kept: seq<Frame>, bucket: int, sample: LapSample, i: nat)
    requires IncreasingDistances(kept) && IsSampleAt(lapId, kept, bucket, sample, i)
    requires forall k :: 0 <= k < |kept| ==> 0.0 <= kept[k].throttle <= 1.0 && 0.0 <= kept[k].brake <= 1.0
    ensures 0.0 <= sample.throttle <= 1.0 && 0.0 <= sample.brake <= 1.0
  {
    var d := bucket as real;
    RatioRange(kept, i, d);
    var pair := BracketAt(kept, i, d);
    var ratio := InterpolationRatio(d, pair.0, pair.1);
    hide IncreasingDistances, Interpolate, InterpolationRatio;
    InterpolateBetween(pair.0.throttle, pair.1.throttle, ratio, 0.0, 1.0);
    InterpolateBetween(pair.0.brake, pair.1.brake, ratio, 0.0, 1.0);
  }

  /** The sample's channels are those of frame `f`. */
  ghost predicate Reproduces(sample: LapSample, f: Frame) {
    && sample.timestampUnixMs == f.timestampUnixMs && sample.speedMps == f.speedMps && sample.rpm == f.rpm
    && sample.gear == f.gear && sample.throttle == f.throttle && sample.brake == f.brake
    && sample.steering == f.steering && sample.fuelLiters == f.fuelLiters
    && sample.yawRadians == f.yawRadians && sample.yawRate == f.yawRate
    && sample.wheelSpeedFL == f.wheelSpeedFL && sample.wheelSpeedFR == f.wheelSpeedFR
    && sample.wheelSpeedRL == f.wheelSpeedRL && sample.wheelSpeedRR == f.wheelSpeedRR
  }

  lemma EndRatiosReproduce(lapId: string, bucket: int, left: Frame, right: Frame)
    requires left.lapDistanceMeters.Some? && right.lapDistanceMeters.Some?
    ensures (left == right && InterpolationRatio(bucket as real, left, right) == 0.0) ==>
              Reproduces(SampleFor(lapId, bucket, left, right), left)
    ensures InterpolationRatio(bucket as real, left, right) == 1.0 ==>
              Reproduces(SampleFor(lapId, bucket, left, right), right)
  {
    InterpolateEnds(left.speedMps, right.speedMps);
    InterpolateEnds(left.rpm, right.rpm);
    InterpolateEnds(left.throttle, right.throttle);
    InterpolateEnds(left.brake, right.brake);
    InterpolateEnds(left.steering, right.steering);
    InterpolateEnds(left.fuelLiters, right.fuelLiters);
    InterpolateEnds(left.timestampUnixMs as real, right.timestampUnixMs as real);
    hide Interpolate, InterpolationRatio;
  }

  /** A bucket that hits a frame's distance reproduces every channel of that frame. */
  lemma HitReproducesFrame(lapId: string, kept: seq<Frame>, bucket: int, sample: LapSample, i: nat, hit: nat)
    requires IncreasingDistances(kept) && IsSampleAt(lapId, kept, bucket, sample, i)
    requires hit < |kept| && DistanceOf(kept[hit]) == bucket as real
    ensures Reproduces(sample, kept[hit])
  {
    var d := bucket as real;
    RatioRange(kept, i, d);
    if hit < i {
      DistancesIncrease(kept, hit, i);
    } else if hit > i + 1 {
      DistancesIncrease(kept, i + 1, hit);
    }
    hide IncreasingDistances, InterpolationRatio;
    var pair := BracketAt(kept, i, d);
    EndRatiosReproduce(lapId, bucket, pair.0, pair.1);
    hide Reproduces, SampleFor;
  }

  lemma RoundMonotone(u: real, v: real)
    requires u <= v
    ensures Round(u) <= Round(v)
  {
  }

  function TimeAt(kept: seq<Frame>, i: nat, d: real): real
    requires Measured(kept) && i + 1 < |kept|
  {
    var pair := BracketAt(kept, i, d);
    Interpolate(pair.0.timestampUnixMs as real, pair.1.timestampUnixMs as real, InterpolationRatio(d, pair.0, pair.1))
  }

  lemma TimeWithinPair(kept: seq<Frame>, i: nat, d: real)
    requires IncreasingDistances(kept) && Sorted(Earlier, kept) && Encloses(kept, i, d)
    ensures kept[i].timestampUnixMs as real <= TimeAt(kept, i, d) <= kept[i + 1].timestampUnixMs as real
  {
    RatioRange(kept, i, d);
    assert !Earlier(kept[i + 1], kept[i]);
    var pair := BracketAt(kept, i, d);
    var lo, hi := kept[i].timestampUnixMs as real, kept[i + 1].timestampUnixMs as real;
    hide Interpolate, InterpolationRatio;
    InterpolateBetween(pair.0.timestampUnixMs as real, pair.1.timestampUnixMs as real,
                       InterpolationRatio(d, pair.0, pair.1), lo, hi);
  }

  lemma TimeGrowsInPair(kept: seq<Frame>, i: nat, d: real, d': real)
    requires IncreasingDistances(kept) && Sorted(Earlier, kept) && Encloses(kept, i, d) && Encloses(kept, i, d')
    requires d <= d'
    ensures TimeAt(kept, i, d) <= TimeAt(kept, i, d')
  {
    TimeWithinPair(kept, i, d');
    var left, right := kept[i], kept[i + 1];
    var ld, rd := DistanceOf(left), DistanceOf(right);
    assert DistanceOf(kept[i + 1 - 1]) < rd;
    var a, b := left.timestampUnixMs as real, right.timestampUnixMs as real;
    assert !Earlier(right, left);
    if d == ld {
      TimesUnits(a - a);
    } else {
      QuotientOrder(d - ld, d' - ld, rd - ld);
      TimesOrder(b - a, InterpolationRatio(d, left, right), InterpolationRatio(d', left, right));
      hide Times;
    }
  }

  /** Later buckets never have earlier timestamps. */
  lemma TimestampsNeverDecrease(lapId: string, kept: seq<Frame>, bucket: int, sample: LapSample, i: nat,
                                bucket': int, sample': LapSample, i': nat)
    requires IncreasingDistances(kept) && Sorted(Earlier, kept)
    requires IsSampleAt(lapId, kept, bucket, sample, i) && IsSampleAt(lapId, kept, bucket', sample', i')
    requires bucket <= bucket'
    ensures sample.timestampUnixMs <= sample'.timestampUnixMs
  {
    var d, d' := bucket as real, bucket' as real;
    TimeWithinPair(kept, i, d);
    TimeWithinPair(kept, i', d');
    if i == i' {
      TimeGrowsInPair(kept, i, d, d');
    } else if i < i' {
      assert i + 1 < i' ==> !Earlier(kept[i'], kept[i + 1]);
    } else {
      DistancesIncrease(kept, i' + 1, i);
    }
    hide Interpolate, InterpolationRatio;
    RoundMonotone(TimeAt(kept, i, d), TimeAt(kept, i', d'));
    hide Round;
  }

  // ----- the samples of a lap -----

  /** Timestamps never decrease from one sample of a lap to a later one. */
  lemma LapSampleTimes(lapId: string, lapNumber: int, frames: seq<Frame>, step: int, j: nat, k: nat)
    requires LapSamplesOf(lapId, lapNumber, frames, step).Some?
    requires j <= k < |LapSamplesOf(lapId, lapNumber, frames, step).value|
    ensures var samples := LapSamplesOf(lapId, lapNumber, frames, step).value;
            samples[j].timestampUnixMs <= samples[k].timestampUnixMs
  {
    var samples, kept := LapSamplesOf(lapId, lapNumber, frames, step).value, UsableFrames(lapNumber, frames).value;
    var first := SamplesAreComplete(lapId, lapNumber, frames, step);
    hide LapSamplesOf, UsableFrames, SamplesFrom, CompleteSamples;
    TimesInOrder(lapId, kept, step, samples, first, j, k);
  }

  lemma TimesInOrder(lapId: string, kept: seq<Frame>, step: int, samples: seq<LapSample>, first: nat, j: nat, k: nat)
    requires SamplesFrom(lapId, kept, step, samples) && CompleteSamples(lapId, kept, step, samples, first)
    requires j <= k < |samples|
    ensures samples[j].timestampUnixMs <= samples[k].timestampUnixMs
  {
    assert Measured(kept) && kept != [];
    hide IsSampleAt, CompleteSamples, SamplesUpTo, BucketCount, IncreasingDistances, Sorted, Measured;
    var i := SampleIndex(lapId, kept, step, samples, first, j);
    var i' := SampleIndex(lapId, kept, step, samples, first, k);
    BucketOrder(step, first + j, first + k);
    hide Bucket;
    TimestampsNeverDecrease(lapId, kept, samples[j].distanceMeters, samples[j], i,
                            samples[k].distanceMeters, samples[k], i');
  }

  /** A sample at the distance of a kept frame reproduces that frame. */
  lemma LapSampleHits(lapId: string, lapNumber: int, frames: seq<Frame>, step: int, j: nat, hit: nat)
    requires LapSamplesOf(lapId, lapNumber, frames, step).Some?
    requires j < |LapSamplesOf(lapId, lapNumber, frames, step).value|
    requires UsableFrames(lapNumber, frames).Some? && hit < |UsableFrames(lapNumber, frames).value|
    requires var sample := LapSamplesOf(lapId, lapNumber, frames, step).value[j];
             DistanceOf(UsableFrames(lapNumber, frames).value[hit]) == sample.distanceMeters as real
    ensures Reproduces(LapSamplesOf(lapId, lapNumber, frames, step).value[j],
                       UsableFrames(lapNumber, frames).value[hit])
  {
    var samples, kept := LapSamplesOf(lapId, lapNumber, frames, step).value, UsableFrames(lapNumber, frames).value;
    var first := SamplesAreComplete(lapId, lapNumber, frames, step);
    hide LapSamplesOf, UsableFrames, IsSampleAt, CompleteSamples, Reproduces;
    var i := SampleIndex(lapId, kept, step, samples, first, j);
    HitReproducesFrame(lapId, kept, samples[j].distanceMeters, samples[j], i, hit);
  }

  /** Throttle and brake of a lap's samples stay in [0,1] if those of its frames do. */
  lemma LapSampleRanges(lapId: string, lapNumber: int, frames: seq<Frame>, step: int, j: nat)
    requires LapSamplesOf(lapId, lapNumber, frames, step).Some?
    requires j < |LapSamplesOf(lapId, lapNumber, frames, step).value|
    requires forall f :: f in frames ==> 0.0 <= f.throttle <= 1.0 && 0.0 <= f.brake <= 1.0
    ensures var sample := LapSamplesOf(lapId, lapNumber, frames, step).value[j];
            0.0 <= sample.throttle <= 1.0 && 0.0 <= sample.brake <= 1.0
  {
    KeptAreFrames(lapNumber, frames);
    var samples, kept := LapSamplesOf(lapId, lapNumber, frames, step).value, UsableFrames(lapNumber, frames).value;
    var first := SamplesAreComplete(lapId, lapNumber, frames, step);
    hide LapSamplesOf, UsableFrames, IsSampleAt, CompleteSamples;
    var i := SampleIndex(lapId, kept, step, samples, first, j);
    SampleStaysInRange(lapId, kept, samples[j].distanceMeters, samples[j], i);
  }

  lemma KeptAreFrames(lapNumber: int, frames: seq<Frame>)
    requires UsableFrames(lapNumber, frames).Some?
    ensures forall f :: f in UsableFrames(lapNumber, frames).value ==> f in frames
  {
    var lapFrames := LapFrames(frames, lapNumber);
    SortBySorted(Earlier, lapFrames);
    PermutationMembers(SortBy(Earlier, lapFrames), lapFrames);
    LastOfRunsInTimeOrder(SortBy(Earlier, lapFrames));
    hide SortBy, LastOfRuns;
  }

  // ----- which frame survives at a distance -----

  predicate IsAt(f: Frame, timestampUnixMs: int, distance: real) {
    f.timestampUnixMs == timestampUnixMs && f.lapDistanceMeters == Some(distance)
  }

  /** The last of the frames with the given time and distance. */
  function LastAt(frames: seq<Frame>, timestampUnixMs: int, distance: real): Option<Frame> {
    if frames == [] then None
    else
      var later := LastAt(frames[1..], timestampUnixMs, distance);
      if later.Some? then later else if IsAt(frames[0], timestampUnixMs, distance) then Some(frames[0]) else None
  }

  lemma {:induction false} LastAtBehind(a: seq<Frame>, b: seq<Frame>, timestampUnixMs: int, distance: real)
    ensures var later := LastAt(b, timestampUnixMs, distance);
            LastAt(a + b, timestampUnixMs, distance)
            == if later.Some? then later else LastAt(a, timestampUnixMs, distance)
  {
    hide IsAt;
    if a == [] {
      assert a + b == b;
    } else {
      assert (a + b)[1..] == a[1..] + b;
      LastAtBehind(a[1..], b, timestampUnixMs, distance);
    }
  }

  /** Only the frames with the time matter, and their order. */
  lemma {:induction false} LastAtOfEquivalents(frames: seq<Frame>, key: Frame, distance: real)
    ensures LastAt(frames, key.timestampUnixMs, distance)
            == LastAt(Equivalents(Earlier, key, frames), key.timestampUnixMs, distance)
  {
    if frames != [] {
      var rest := Equivalents(Earlier, key, frames[1..]);
      LastAtOfEquivalents(frames[1..], key, distance);
      assert [] + rest == rest;
      LastAtBehind([frames[0]], rest, key.timestampUnixMs, distance);
      assert [frames[0]][1..] == [];
      hide Equivalents;
    }
  }

  lemma {:induction false} NoneAt(frames: seq<Frame>, timestampUnixMs: int, distance: real)
    requires forall i :: 0 <= i < |frames| ==> frames[i].lapDistanceMeters != Some(distance)
    ensures LastAt(frames, timestampUnixMs, distance) == None
  {
    if frames != [] {
      NoneAt(frames[1..], timestampUnixMs, distance);
    }
  }

  lemma {:induction false} DistancesFrom(frames: seq<Frame>, i: nat)
    requires UsableDistances(frames) && i < |frames|
    ensures DistanceOf(frames[0]) <= DistanceOf(frames[i])
  {
    if i > 0 {
      DistancesFrom(frames, i - 1);
    }
  }

  /** A frame that collapsing keeps is the last at its time and distance, and no frame at its distance is later. */
  lemma {:induction false} KeptIsLast(frames: seq<Frame>, f: Frame)
    requires UsableDistances(frames) && Sorted(Earlier, frames) && f in LastOfRuns(frames)
    ensures f.lapDistanceMeters.Some? && LastAt(frames, f.timestampUnixMs, DistanceOf(f)) == Some(f)
    ensures forall g :: g in frames && g.lapDistanceMeters == f.lapDistanceMeters ==>
              g.timestampUnixMs <= f.timestampUnixMs
  {
    var rest := frames[1..];
    if |frames| >= 2 {
      UsableTail(frames);
    }
    if f in LastOfRuns(rest) {
      KeptIsLast(rest, f);
      LastOfRunsInTimeOrder(rest);
      assert f in rest;
      FirstIsEarliest(frames, f);
    } else {
      AheadOfRest(frames);
      NoneAt(rest, f.timestampUnixMs, DistanceOf(f));
      assert frames == [f] + rest;
    }
  }

  lemma FirstIsEarliest(frames: seq<Frame>, f: Frame)
    requires Sorted(Earlier, frames) && frames != [] && f in frames[1..]
    ensures frames[0].timestampUnixMs <= f.timestampUnixMs
  {
    var i :| 0 <= i < |frames| - 1 && frames[1..][i] == f;
    assert !Earlier(frames[i + 1], frames[0]);
  }

  /** A first frame that is kept has all others at larger distances. */
  lemma AheadOfRest(frames: seq<Frame>)
    requires UsableDistances(frames) && frames != []
    requires |frames| >= 2 ==> DistanceOf(frames[0]) != DistanceOf(frames[1])
    ensures forall i :: 0 <= i < |frames| - 1 ==> DistanceOf(frames[0]) < DistanceOf(frames[1..][i])
  {
    if |frames| >= 2 {
      UsableTail(frames);
      forall i | 0 <= i < |frames| - 1
        ensures DistanceOf(frames[0]) < DistanceOf(frames[1..][i])
      {
        DistancesFrom(frames[1..], i);
      }
    }
  }

  lemma EarlierIsOrder()
    ensures StrictWeakOrder(Earlier)
  {
  }

  /** Frame `i` is the last in upload order of the lap's frames with its time and distance. */
  ghost predicate IsLastUpload(frames: seq<Frame>, lapNumber: int, i: nat) {
    && i < |frames| && frames[i].lapNumber == lapNumber
    && forall j :: i < j < |frames| && frames[j].lapNumber == lapNumber
                   && frames[j].lapDistanceMeters == frames[i].lapDistanceMeters ==>
         frames[j].timestampUnixMs != frames[i].timestampUnixMs
  }

  lemma LastAtNext(frames: seq<Frame>, lapNumber: int, timestampUnixMs: int, distance: real)
    requires frames != []
    ensures var last, before := frames[|frames| - 1], LapFrames(frames[..|frames| - 1], lapNumber);
            LastAt(LapFrames(frames, lapNumber), timestampUnixMs, distance)
            == if last.lapNumber == lapNumber && IsAt(last, timestampUnixMs, distance) then Some(last)
               else LastAt(before, timestampUnixMs, distance)
  {
    var last, before := frames[|frames| - 1], LapFrames(frames[..|frames| - 1], lapNumber);
    assert before + [] == before && [last][1..] == [];
    LastAtBehind(before, [last], timestampUnixMs, distance);
    hide IsAt;
  }

  lemma LastUploadStays(frames: seq<Frame>, lapNumber: int, i: nat)
    requires frames != [] && IsLastUpload(frames[..|frames| - 1], lapNumber, i)
    requires var last := frames[|frames| - 1];
             last.lapNumber != lapNumber || last.timestampUnixMs != frames[i].timestampUnixMs
             || last.lapDistanceMeters != frames[i].lapDistanceMeters
    ensures IsLastUpload(frames, lapNumber, i)
  {
    assert forall j :: 0 <= j < |frames| - 1 ==> frames[..|frames| - 1][j] == frames[j];
  }

  lemma {:induction false} LastAtOfLap(frames: seq<Frame>, lapNumber: int, f: Frame, distance: real) returns (i: nat)
    requires LastAt(LapFrames(frames, lapNumber), f.timestampUnixMs, distance) == Some(f)
    requires f.lapDistanceMeters == Some(distance)
    ensures IsLastUpload(frames, lapNumber, i) && frames[i] == f
  {
    assert frames != [];
    var n := |frames| - 1;
    LastAtNext(frames, lapNumber, f.timestampUnixMs, distance);
    hide LastAt, LapFrames;
    if frames[n].lapNumber == lapNumber && IsAt(frames[n], f.timestampUnixMs, distance) {
      i := n;
    } else {
      hide IsLastUpload;
      i := LastAtOfLap(frames[..n], lapNumber, f, distance);
      UploadIndex(frames[..n], lapNumber, i);
      LastUploadStays(frames, lapNumber, i);
    }
  }

  lemma UploadIndex(frames: seq<Frame>, lapNumber: int, i: nat)
    requires IsLastUpload(frames, lapNumber, i)
    ensures i < |frames|
  {
  }

  /** Of the lap's frames at one distance the one that is sampled is a newest, and of several of the same time the
      last in upload order. */
  lemma SurvivorIsLastUploaded(lapNumber: int, frames: seq<Frame>, f: Frame) returns (i: nat)
    requires UsableFrames(lapNumber, frames).Some? && f in UsableFrames(lapNumber, frames).value
    ensures IsLastUpload(frames, lapNumber, i) && frames[i] == f && f.lapDistanceMeters.Some?
    ensures forall g :: g in frames && g.lapNumber == lapNumber && g.lapDistanceMeters == f.lapDistanceMeters ==>
              g.timestampUnixMs <= f.timestampUnixMs
  {
    var lapFrames := LapFrames(frames, lapNumber);
    var sorted := SortBy(Earlier, lapFrames);
    EarlierIsOrder();
    SortBySorted(Earlier, lapFrames);
    PermutationMembers(sorted, lapFrames);
    KeptIsLast(sorted, f);
    SortByStable(Earlier, f, lapFrames);
    LastAtOfEquivalents(sorted, f, DistanceOf(f));
    LastAtOfEquivalents(lapFrames, f, DistanceOf(f));
    hide SortBy, LastOfRuns, LastAt, Equivalents;
    i := LastAtOfLap(frames, lapNumber, f, DistanceOf(f));
  }
}
