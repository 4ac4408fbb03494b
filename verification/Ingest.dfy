/** Normalising one uploaded batch: which frames are accepted, and why the others are not. */
module Ingest {
  import opened Prelude
  import opened Telemetry

  const MAX_BATCH_FRAMES := 600

  datatype Category = BatchCategory | FrameCategory | ConsistencyCategory

  datatype Rejection = Rejection(code: string, category: Category, field: string, frameIndex: Option<nat>)

  datatype Normalized = Normalized(frames: seq<Frame>, rejections: seq<Rejection>)

  // ----- one frame -----

  predicate NonNegative(v: Option<real>) {
    v.Some? ==> v.value >= 0.0
  }

  predicate NonNegativeTime(v: Option<int>) {
    v.Some? ==> v.value >= 0
  }

  predicate UnitRange(v: real) {
    0.0 <= v <= 1.0
  }

  function RejectFrame(code: string, field: string): Option<Rejection> {
    Some(Rejection(code, FrameCategory, field, None))
  }

  /** What is wrong with a frame by itself. The channels are real numbers, so the checks that steering,
      position and yaw are finite never fail. */
  function FrameFault(f: Frame): Option<Rejection> {
    if f.timestampUnixMs <= 0 then RejectFrame("invalid_timestamp", "timestampUnixMs")
    else if f.speedMps < 0.0 then RejectFrame("invalid_speed", "speedMps")
    else if f.rpm < 0.0 then RejectFrame("invalid_rpm", "rpm")
    else if !UnitRange(f.throttle) then RejectFrame("invalid_throttle", "throttle")
    else if !UnitRange(f.brake) then RejectFrame("invalid_brake", "brake")
    else if f.fuelLiters < 0.0 then RejectFrame("invalid_fuel", "fuelLiters")
    else if !NonNegative(f.wheelSpeedFL) || !NonNegative(f.wheelSpeedFR)
            || !NonNegative(f.wheelSpeedRL) || !NonNegative(f.wheelSpeedRR) then
      RejectFrame("invalid_wheel_speed", "wheelSpeed")
    else if !NonNegative(f.lapDistanceMeters) then RejectFrame("invalid_lap_distance", "lapDistanceMeters")
    else if f.lapNumber < 0 then RejectFrame("invalid_lap_number", "lapNumber")
    else if f.currentLapMs < 0 || !NonNegativeTime(f.lastLapMs) || !NonNegativeTime(f.bestLapMs) then
      RejectFrame("invalid_lap_time", "lapTime")
    else None
  }

  // ----- consistency with the frames accepted before -----

  function RejectInconsistent(code: string, field: string, index: nat): Option<Rejection> {
    Some(Rejection(code, ConsistencyCategory, field, Some(index)))
  }

  function ConsistencyFault(previous: seq<Frame>, current: Frame, index: nat): Option<Rejection> {
    if previous == [] then None
    else
      var last := previous[|previous| - 1];
      if current.timestampUnixMs <= last.timestampUnixMs then
        RejectInconsistent("non_monotonic_timestamp", "timestampUnixMs", index)
      else if current.lapNumber < last.lapNumber then RejectInconsistent("lap_number_regressed", "lapNumber", index)
      else if current.lapNumber == last.lapNumber && current.currentLapMs < last.currentLapMs then
        RejectInconsistent("current_lap_time_regressed", "currentLapMs", index)
      else None
  }

  /** The verdict on a frame that comes after the given accepted ones. */
  function Verdict(accepted: seq<Frame>, frame: Frame, index: nat): Option<Rejection> {
    if FrameFault(frame).Some? then Some(FrameFault(frame).value.(frameIndex := Some(index)))
    else ConsistencyFault(accepted, frame, index)
  }

  // ----- the batch -----

  /** Accepted frames and rejections of the first frames of a batch, each in the order of the batch. */
  function Sifted(frames: seq<Frame>): Normalized {
    if frames == [] then Normalized([], [])
    else
      var n := |frames| - 1;
      var before := Sifted(frames[..n]);
      match Verdict(before.frames, frames[n], n)
      case None => before.(frames := before.frames + [frames[n]])
      case Some(rejection) => before.(rejections := before.rejections + [rejection])
  }

  function RejectBatch(code: string, field: string): Rejection {
    Rejection(code, BatchCategory, field, None)
  }

  /** What is wrong with a batch as a whole. */
  function BatchFault(batch: Batch): Option<Rejection> {
    if batch.sessionId == "" then Some(RejectBatch("session_id_required", "sessionId"))
    else if batch.frames == [] then Some(RejectBatch("frames_empty", "frames"))
    else if |batch.frames| > MAX_BATCH_FRAMES then Some(RejectBatch("batch_too_large", "frames"))
    else None
  }

  method Normalize(batch: Batch) returns (r: Result<Normalized, Rejection>)
    ensures r == if BatchFault(batch).Some? then Err(BatchFault(batch).value) else Ok(Sifted(batch.frames))
  {
    if batch.sessionId == "" {
      return Err(RejectBatch("session_id_required", "sessionId"));
    }
    if |batch.frames| == 0 {
      return Err(RejectBatch("frames_empty", "frames"));
    }
    if |batch.frames| > MAX_BATCH_FRAMES {
      return Err(RejectBatch("batch_too_large", "frames"));
    }
    var accepted: seq<Frame>, rejections: seq<Rejection> := [], [];
    hide FrameFault, ConsistencyFault;
    for index := 0 to |batch.frames|
      invariant Normalized(accepted, rejections) == Sifted(batch.frames[..index])
    {
      assert batch.frames[..index + 1][..index] == batch.frames[..index];
      var frame := batch.frames[index];
      var fault := FrameFault(frame);
      if fault.Some? {
        rejections := rejections + [fault.value.(frameIndex := Some(index))];
        continue;
      }
      var inconsistency := ConsistencyFault(accepted, frame, index);
      if inconsistency.Some? {
        rejections := rejections + [inconsistency.value];
        continue;
      }
      accepted := accepted + [frame];
    }
    assert batch.frames[..|batch.frames|] == batch.frames;
    return Ok(Normalized(accepted, rejections));
  }

  // ----- what normalising promises -----

  /** Every frame is either accepted or rejected with its own index. */
  lemma {:induction false} EveryFrameAccounted(frames: seq<Frame>)
    ensures var r := Sifted(frames);
            && |r.frames| + |r.rejections| == |frames|
            && (forall k :: 0 <= k < |r.rejections| ==> r.rejections[k].frameIndex.Some?)
            && (forall j, k :: 0 <= j < k < |r.rejections| ==>
                  r.rejections[j].frameIndex.value < r.rejections[k].frameIndex.value < |frames|)
            && (forall k :: 0 <= k < |r.rejections| ==> r.rejections[k].frameIndex.value < |frames|)
  {
    if frames != [] {
      EveryFrameAccounted(frames[..|frames| - 1]);
      VerdictIndex(Sifted(frames[..|frames| - 1]).frames, frames[|frames| - 1], |frames| - 1);
      hide Verdict;
    }
  }

  lemma VerdictIndex(accepted: seq<Frame>, frame: Frame, index: nat)
    ensures Verdict(accepted, frame, index).Some? ==> Verdict(accepted, frame, index).value.frameIndex == Some(index)
  {
    hide FrameFault;
  }

  predicate InOrder(a: Frame, b: Frame) {
    && a.timestampUnixMs < b.timestampUnixMs && a.lapNumber <= b.lapNumber
    && (a.lapNumber == b.lapNumber ==> a.currentLapMs <= b.currentLapMs)
  }

  /** Timestamps strictly increase, laps do not decrease, and neither does the time within a lap. */
  ghost predicate Consistent(frames: seq<Frame>) {
    && (forall i :: 0 <= i < |frames| ==> FrameFault(frames[i]).None?)
    && forall i, j :: 0 <= i < j < |frames| ==> InOrder(frames[i], frames[j])
  }

  lemma ConsistentNext(frames: seq<Frame>, next: Frame, index: nat)
    requires Consistent(frames)
    ensures Verdict(frames, next, index).None? <==> Consistent(frames + [next])
  {
    var longer := frames + [next];
    hide FrameFault;
    if Verdict(frames, next, index).None? {
      forall i | 0 <= i < |frames|
        ensures InOrder(frames[i], next)
      {
        assert i < |frames| - 1 ==> InOrder(frames[i], frames[|frames| - 1]);
      }
    } else if Consistent(longer) {
      LastInOrder(longer);
    }
  }

  lemma LastInOrder(frames: seq<Frame>)
    requires Consistent(frames) && frames != []
    ensures FrameFault(frames[|frames| - 1]).None?
    ensures |frames| > 1 ==> InOrder(frames[|frames| - 2], frames[|frames| - 1])
  {
    hide FrameFault, InOrder;
  }

  lemma {:induction false} AcceptedConsistent(frames: seq<Frame>)
    ensures Consistent(Sifted(frames).frames)
  {
    if frames != [] {
      var n := |frames| - 1;
      AcceptedConsistent(frames[..n]);
      ConsistentNext(Sifted(frames[..n]).frames, frames[n], n);
      hide Verdict, Consistent;
    }
  }

  /** A batch loses no frame exactly if it is consistent already. */
  lemma {:induction false} AcceptsAllExactlyConsistent(frames: seq<Frame>)
    ensures Sifted(frames) == Normalized(frames, []) <==> Consistent(frames)
    ensures Sifted(frames).rejections == [] <==> Consistent(frames)
  {
    if frames == [] {
    } else {
      var n := |frames| - 1;
      AcceptsAllExactlyConsistent(frames[..n]);
      EveryFrameAccounted(frames[..n]);
      assert frames[..n] + [frames[n]] == frames;
      if Consistent(frames[..n]) {
        ConsistentNext(frames[..n], frames[n], n);
      }
      hide Verdict, FrameFault;
    }
  }

  /** Normalising what was accepted accepts all of it again. */
  lemma RenormalizeRejectsNothing(frames: seq<Frame>)
    ensures var accepted := Sifted(frames).frames; Sifted(accepted) == Normalized(accepted, [])
  {
    AcceptedConsistent(frames);
    AcceptsAllExactlyConsistent(Sifted(frames).frames);
  }

  /** A frame is accepted exactly if it and the frames accepted before it form a consistent batch, so frames
      are taken greedily. */
  lemma AcceptedGreedily(frames: seq<Frame>, frame: Frame)
    ensures var before := Sifted(frames).frames;
            Sifted(frames + [frame]).frames == if Consistent(before + [frame]) then before + [frame] else before
  {
    assert (frames + [frame])[..|frames|] == frames;
    AcceptedConsistent(frames);
    ConsistentNext(Sifted(frames).frames, frame, |frames|);
    hide Verdict, Consistent;
  }

  // ----- why a frame is rejected -----

  /** A check that is passed or not, and the code and field that a failure reports. */
  datatype Check = Check(passed: bool, code: string, field: string)

  /** The checks of a frame by itself, in their order. */
  ghost function FrameChecks(f: Frame): seq<Check> {
    [Check(f.timestampUnixMs > 0, "invalid_timestamp", "timestampUnixMs"),
     Check(f.speedMps >= 0.0, "invalid_speed", "speedMps"),
     Check(f.rpm >= 0.0, "invalid_rpm", "rpm"),
     Check(0.0 <= f.throttle <= 1.0, "invalid_throttle", "throttle"),
     Check(0.0 <= f.brake <= 1.0, "invalid_brake", "brake"),
     Check(f.fuelLiters >= 0.0, "invalid_fuel", "fuelLiters"),
     Check(forall v: real :: Some(v) in [f.wheelSpeedFL, f.wheelSpeedFR, f.wheelSpeedRL, f.wheelSpeedRR] ==> v >= 0.0,
           "invalid_wheel_speed", "wheelSpeed"),
     Check(f.lapDistanceMeters == None || f.lapDistanceMeters.value >= 0.0,
           "invalid_lap_distance", "lapDistanceMeters"),
     Check(f.lapNumber >= 0, "invalid_lap_number", "lapNumber"),
     Check(f.currentLapMs >= 0 && forall t: int :: Some(t) in [f.lastLapMs, f.bestLapMs] ==> t >= 0,
           "invalid_lap_time", "lapTime")]
  }

  /** The checks of a frame against the last accepted one. */
  ghost function OrderChecks(last: Frame, f: Frame): seq<Check> {
    [Check(f.timestampUnixMs > last.timestampUnixMs, "non_monotonic_timestamp", "timestampUnixMs"),
     Check(f.lapNumber >= last.lapNumber, "lap_number_regressed", "lapNumber"),
     Check(f.lapNumber > last.lapNumber || f.currentLapMs >= last.currentLapMs,
           "current_lap_time_regressed", "currentLapMs")]
  }

  ghost predicate AllPassed(checks: seq<Check>) {
    forall k :: 0 <= k < |checks| ==> checks[k].passed
  }

  /** The rejection reports the first of the checks that fails. */
  ghost predicate ReportsFirst(r: Rejection, checks: seq<Check>) {
    exists k :: 0 <= k < |checks| && !checks[k].passed && (forall j :: 0 <= j < k ==> checks[j].passed)
                && r.code == checks[k].code && r.field == checks[k].field
  }

  lemma WheelSpeeds(f: Frame)
    ensures (NonNegative(f.wheelSpeedFL) && NonNegative(f.wheelSpeedFR)
             && NonNegative(f.wheelSpeedRL) && NonNegative(f.wheelSpeedRR))
            <==> forall v: real ::
                   Some(v) in [f.wheelSpeedFL, f.wheelSpeedFR, f.wheelSpeedRL, f.wheelSpeedRR] ==> v >= 0.0
  {
    var speeds := [f.wheelSpeedFL, f.wheelSpeedFR, f.wheelSpeedRL, f.wheelSpeedRR];
    assert speeds[0] in speeds && speeds[1] in speeds && speeds[2] in speeds && speeds[3] in speeds;
    if v: real :| Some(v) in speeds && v < 0.0 {
      assert !NonNegative(Some(v));
    }
  }

  lemma LapTimes(f: Frame)
    ensures NonNegativeTime(f.lastLapMs) && NonNegativeTime(f.bestLapMs)
            <==> forall t: int :: Some(t) in [f.lastLapMs, f.bestLapMs] ==> t >= 0
  {
    var times := [f.lastLapMs, f.bestLapMs];
    assert times[0] in times && times[1] in times;
    if t: int :| Some(t) in times && t < 0 {
      assert !NonNegativeTime(Some(t));
    }
  }

  lemma FrameFaultReports(f: Frame)
    ensures FrameFault(f).None? <==> AllPassed(FrameChecks(f))
    ensures FrameFault(f).Some? ==>
              var r := FrameFault(f).value; r.category == FrameCategory && ReportsFirst(r, FrameChecks(f))
  {
    WheelSpeeds(f);
    LapTimes(f);
    var checks := FrameChecks(f);
    if FrameFault(f).Some? {
      var k := if !checks[0].passed then 0 else if !checks[1].passed then 1 else if !checks[2].passed then 2
      else if !checks[3].passed then 3 else if !checks[4].passed then 4 else if !checks[5].passed then 5
      else if !checks[6].passed then 6 else if !checks[7].passed then 7 else if !checks[8].passed then 8 else 9;
      assert !checks[k].passed && forall j :: 0 <= j < k ==> checks[j].passed;
    }
  }

  lemma OrderFaultReports(accepted: seq<Frame>, f: Frame, index: nat)
    ensures ConsistencyFault(accepted, f, index).None?
            <==> accepted == [] || AllPassed(OrderChecks(accepted[|accepted| - 1], f))
    ensures ConsistencyFault(accepted, f, index).Some? ==>
              && accepted != [] && var r := ConsistencyFault(accepted, f, index).value;
              && r.category == ConsistencyCategory && r.frameIndex == Some(index)
              && ReportsFirst(r, OrderChecks(accepted[|accepted| - 1], f))
  {
    if accepted != [] {
      var checks := OrderChecks(accepted[|accepted| - 1], f);
      var k := if !checks[0].passed then 0 else if !checks[1].passed then 1 else 2;
      assert forall j :: 0 <= j < k ==> checks[j].passed;
      assert AllPassed(checks) <==> checks[0].passed && checks[1].passed && checks[2].passed;
    }
  }

  /** The rejection of the `i`-th frame reports its first failing check; only a frame that passes all checks by
      itself is compared with the last one accepted before it. */
  ghost predicate Explains(r: Rejection, frames: seq<Frame>, i: nat)
    requires i < |frames|
  {
    var accepted := Sifted(frames[..i]).frames;
    && r.frameIndex == Some(i)
    && if !AllPassed(FrameChecks(frames[i])) then
         r.category == FrameCategory && ReportsFirst(r, FrameChecks(frames[i]))
       else
         && r.category == ConsistencyCategory && accepted != []
         && ReportsFirst(r, OrderChecks(accepted[|accepted| - 1], frames[i]))
  }

  lemma VerdictExplained(frames: seq<Frame>, i: nat)
    requires i < |frames|
    ensures var verdict := Verdict(Sifted(frames[..i]).frames, frames[i], i);
            verdict.Some? ==> Explains(verdict.value, frames, i)
  {
    FrameFaultReports(frames[i]);
    OrderFaultReports(Sifted(frames[..i]).frames, frames[i], i);
    hide FrameFault, ConsistencyFault, FrameChecks, OrderChecks, AllPassed, Sifted;
    var fault := FrameFault(frames[i]);
    if fault.Some? {
      SameReport(fault.value, i, FrameChecks(frames[i]));
    }
    hide ReportsFirst;
  }

  lemma SameReport(r: Rejection, index: nat, checks: seq<Check>)
    requires ReportsFirst(r, checks)
    ensures ReportsFirst(r.(frameIndex := Some(index)), checks)
  {
  }

  /** Every rejection reports the first check that its frame fails. */
  lemma {:induction false} RejectionsExplained(frames: seq<Frame>, k: nat)
    requires k < |Sifted(frames).rejections|
    ensures var r := Sifted(frames).rejections[k];
            r.frameIndex.Some? && r.frameIndex.value < |frames| && Explains(r, frames, r.frameIndex.value)
  {
    var n := |frames| - 1;
    VerdictExplained(frames, n);
    if k < |Sifted(frames[..n]).rejections| {
      RejectionsExplained(frames[..n], k);
      var r := Sifted(frames[..n]).rejections[k];
      assert Sifted(frames).rejections[k] == r;
      assert frames[..n][..r.frameIndex.value] == frames[..r.frameIndex.value];
    }
    hide Verdict, FrameChecks, OrderChecks, ReportsFirst, AllPassed;
  }

  /** The checks of a batch as a whole. */
  ghost function BatchChecks(batch: Batch): seq<Check> {
    [Check(batch.sessionId != "", "session_id_required", "sessionId"),
     Check(|batch.frames| > 0, "frames_empty", "frames"),
     Check(|batch.frames| <= 600, "batch_too_large", "frames")]
  }

  /** A batch is refused as a whole exactly if it names no session, is empty or has more than 600 frames. */
  lemma BatchRefused(batch: Batch)
    ensures BatchFault(batch).None? <==> batch.sessionId != "" && 1 <= |batch.frames| <= 600
    ensures BatchFault(batch).Some? ==> ReportsFirst(BatchFault(batch).value, BatchChecks(batch))
  {
    var checks := BatchChecks(batch);
    if BatchFault(batch).Some? {
      var k := if !checks[0].passed then 0 else if !checks[1].passed then 1 else 2;
      assert !checks[k].passed && forall j :: 0 <= j < k ==> checks[j].passed;
    }
  }
}
