/** Off-track stints over a whole stream of frames, and batch by batch as frames are appended. */
module OffTrack {
  import opened Prelude
  import opened Telemetry

  datatype Severity = Low | Medium | High

  datatype Options = Options(minDurationMs: int, mediumDurationMs: int, highDurationMs: int)

  const DEFAULT_OPTIONS := Options(500, 1500, 3000)

  /** What an off-track event reports. */
  datatype Stint = Stint(lapNumber: int, startMs: int, endMs: int, durationMs: int, frameCount: nat, thresholdMs: int,
                         severity: Severity)

  function SeverityFor(value: int, medium: int, high: int): Severity {
    if value >= high then High else if value >= medium then Medium else Low
  }

  function DurationMs(run: seq<Frame>): int
    requires run != []
  {
    run[|run| - 1].timestampUnixMs - run[0].timestampUnixMs
  }

  /** The event for one run of off-track frames, if it lasts long enough. */
  function StintOf(options: Options, run: seq<Frame>): seq<Stint>
    requires run != []
  {
    if DurationMs(run) < options.minDurationMs then []
    else
      [Stint(if run[0].lapNumber < 0 then 0 else run[0].lapNumber, run[0].timestampUnixMs,
             run[|run| - 1].timestampUnixMs, DurationMs(run), |run|, options.minDurationMs,
             SeverityFor(DurationMs(run), options.mediumDurationMs, options.highDurationMs))]
  }

  ghost predicate AllOff(frames: seq<Frame>) {
    forall i :: 0 <= i < |frames| ==> !frames[i].isOnTrack
  }

  /** The number of leading off-track frames. */
  function LeadLength(frames: seq<Frame>): (n: nat)
    ensures n <= |frames| && AllOff(frames[..n])
    ensures n < |frames| ==> frames[n].isOnTrack
  {
    if frames == [] || frames[0].isOnTrack then 0
    else
      var n := 1 + LeadLength(frames[1..]);
      assert forall i :: 0 < i < n ==> frames[i] == frames[1..][..n - 1][i - 1];
      n
  }

  /** The stints of a whole stream: one candidate per maximal run of off-track frames. */
  function Stints(options: Options, frames: seq<Frame>): seq<Stint>
    decreases |frames|
  {
    if frames == [] then []
    else if frames[0].isOnTrack then Stints(options, frames[1..])
    else
      var n := LeadLength(frames);
      StintOf(options, frames[..n]) + Stints(options, frames[n..])
  }

  /** The stints of the stream from frame `k` on. */
  ghost function StintsFrom(options: Options, frames: seq<Frame>, k: nat): seq<Stint>
    requires k <= |frames|
  {
    Stints(options, frames[k..])
  }

  lemma StintsFromEnds(options: Options, frames: seq<Frame>)
    ensures StintsFrom(options, frames, 0) == Stints(options, frames)
    ensures StintsFrom(options, frames, |frames|) == []
  {
    assert frames[0..] == frames && frames[|frames|..] == [];
  }

  method OffTrackStintEvents(options: Options, frames: seq<Frame>) returns (events: seq<Stint>)
    ensures events == Stints(options, frames)
  {
    hide *;
    events := [];
    StintsFromEnds(options, frames);
    if frames == [] {
      return;
    }
    var streak := Streak(frames[0], frames[0], 0, false);
    ghost var from := 0;
    TracksNone(streak, frames, 0);
    for i := 0 to |frames|
      invariant from <= i
      invariant Tracks(streak, frames, from, i)
      invariant Stints(options, frames) == events + StintsFrom(options, frames, from)
    {
      var frame := frames[i];
      if !frame.isOnTrack {
        TracksOn(streak, frames, from, i);
        streak := Grow(streak, frame);
        continue;
      }
      var emitted := Emit(options, streak, frames, from, i);
      CloseStreak(options, streak, frames, from, i, events, emitted);
      events := events + emitted;
      SkipOnTrack(options, frames, i);
      streak := streak.(active := false, count := 0);
      from := i + 1;
      TracksNone(streak, frames, i + 1);
    }
    var emitted := Emit(options, streak, frames, from, |frames|);
    CloseStreak(options, streak, frames, from, |frames|, events, emitted);
    events := events + emitted;
  }

  /** The loop's streak variables. */
  datatype Streak = Streak(start: Frame, end: Frame, count: nat, active: bool)

  /** The streak describes the off-track frames from `from` up to `i`. */
  ghost predicate Tracks(streak: Streak, frames: seq<Frame>, from: nat, i: nat) {
    && from <= i <= |frames|
    && (forall k :: from <= k < i ==> !frames[k].isOnTrack)
    && streak.count == i - from
    && (streak.active <==> from < i)
    && (streak.active ==> streak.start == frames[from] && streak.end == frames[i - 1])
  }

  /** The streak with one more off-track frame. */
  function Grow(streak: Streak, frame: Frame): Streak {
    var started := if streak.active then streak else streak.(active := true, start := frame, count := 0);
    started.(end := frame, count := started.count + 1)
  }

  lemma TracksNone(streak: Streak, frames: seq<Frame>, i: nat)
    requires i <= |frames| && !streak.active && streak.count == 0
    ensures Tracks(streak, frames, i, i)
  {
  }

  lemma TracksOn(streak: Streak, frames: seq<Frame>, from: nat, i: nat)
    requires i < |frames| && !frames[i].isOnTrack && Tracks(streak, frames, from, i)
    ensures Tracks(Grow(streak, frames[i]), frames, from, i + 1)
  {
  }

  /** Closes the current streak: the event for it, if it lasted long enough. */
  method Emit(options: Options, streak: Streak, ghost frames: seq<Frame>, ghost from: nat, ghost to: nat)
    returns (emitted: seq<Stint>)
    requires Tracks(streak, frames, from, to)
    ensures emitted == if from == to then [] else StintOf(options, frames[from..to])
  {
    if !streak.active || streak.count == 0 {
      return [];
    }
    var durationMs := streak.end.timestampUnixMs - streak.start.timestampUnixMs;
    if durationMs < options.minDurationMs {
      return [];
    }
    var lapNumber := streak.start.lapNumber;
    if lapNumber < 0 {
      lapNumber := 0;
    }
    return [Stint(lapNumber, streak.start.timestampUnixMs, streak.end.timestampUnixMs, durationMs, streak.count,
                  options.minDurationMs, SeverityFor(durationMs, options.mediumDurationMs, options.highDurationMs))];
  }

  lemma ConcatAssociates<T>(a: seq<T>, b: seq<T>, c: seq<T>)
    ensures a + (b + c) == (a + b) + c
  {
  }

  lemma SkipOnTrack(options: Options, frames: seq<Frame>, i: nat)
    requires i < |frames| && frames[i].isOnTrack
    ensures StintsFrom(options, frames, i) == StintsFrom(options, frames, i + 1)
  {
    assert frames[i..][1..] == frames[i + 1..];
  }

  lemma {:induction false} LeadIs(frames: seq<Frame>, n: nat)
    requires n <= |frames| && AllOff(frames[..n])
    requires n < |frames| ==> frames[n].isOnTrack
    ensures LeadLength(frames) == n
  {
    if n > 0 {
      assert frames[..n][0] == frames[0] && frames[1..][..n - 1] == frames[..n][1..];
      LeadIs(frames[1..], n - 1);
    }
  }

  /** A run that ends at an on-track frame, or at the end of the stream, is counted by itself. */
  lemma RunCountsAlone(options: Options, frames: seq<Frame>, from: nat, to: nat)
    requires from < to <= |frames| && forall k :: from <= k < to ==> !frames[k].isOnTrack
    requires to < |frames| ==> frames[to].isOnTrack
    ensures StintsFrom(options, frames, from) == StintOf(options, frames[from..to]) + StintsFrom(options, frames, to)
  {
    hide StintOf;
    var rest := frames[from..];
    assert rest[..to - from] == frames[from..to] && rest[to - from..] == frames[to..];
    LeadIs(rest, to - from);
  }

  lemma CloseStreak(options: Options, streak: Streak, frames: seq<Frame>, from: nat, to: nat,
                    events: seq<Stint>, emitted: seq<Stint>)
    requires Tracks(streak, frames, from, to)
    requires to < |frames| ==> frames[to].isOnTrack
    requires emitted == if from == to then [] else StintOf(options, frames[from..to])
    ensures events + StintsFrom(options, frames, from) == (events + emitted) + StintsFrom(options, frames, to)
  {
    if from < to {
      RunCountsAlone(options, frames, from, to);
    }
    hide StintOf, StintsFrom;
    ConcatAssociates(events, emitted, StintsFrom(options, frames, to));
  }

  // ----- what the stints are -----

  /** Frames i to j are off track, and the run cannot be extended on either side. */
  ghost predicate IsMaximalRun(frames: seq<Frame>, i: nat, j: nat) {
    && i < j <= |frames|
    && (forall k :: i <= k < j ==> !frames[k].isOnTrack)
    && (i == 0 || frames[i - 1].isOnTrack)
    && (j == |frames| || frames[j].isOnTrack)
  }

  /** Some maximal run that starts at or after `from` lasts long enough, and its event is `s`. */
  ghost predicate ReportsRun(options: Options, frames: seq<Frame>, from: nat, s: Stint) {
    exists i: nat, j: nat :: from <= i && IsMaximalRun(frames, i, j) && StintOf(options, frames[i..j]) == [s]
  }

  /** The stints are exactly the events of the maximal runs that last long enough. */
  lemma StintsReportMaximalRuns(options: Options, frames: seq<Frame>, s: Stint)
    ensures s in Stints(options, frames) <==> ReportsRun(options, frames, 0, s)
  {
    assert frames[0..] == frames;
    StintsFromReportRuns(options, frames, 0, s);
  }

  lemma {:induction false} StintsFromReportRuns(options: Options, frames: seq<Frame>, from: nat, s: Stint)
    requires from <= |frames| && (from == 0 || from == |frames| || frames[from - 1].isOnTrack || frames[from].isOnTrack)
    ensures s in StintsFrom(options, frames, from) <==> ReportsRun(options, frames, from, s)
    decreases |frames| - from
  {
    if from == |frames| {
      assert frames[from..] == [];
    } else if frames[from].isOnTrack {
      SkipOnTrack(options, frames, from);
      StintsFromReportRuns(options, frames, from + 1, s);
      hide StintsFrom, StintOf;
    } else {
      var to := MaximalRunFrom(frames, from);
      StintsFromReportRuns(options, frames, to, s);
      hide StintsFrom, StintOf;
      RunCountsAlone(options, frames, from, to);
      RunsSplit(options, frames, from, to, s);
      AtMostOne(options, frames[from..to], s);
    }
  }

  lemma AtMostOne(options: Options, run: seq<Frame>, s: Stint)
    requires run != []
    ensures s in StintOf(options, run) <==> StintOf(options, run) == [s]
  {
  }

  lemma MaximalRunFrom(frames: seq<Frame>, from: nat) returns (to: nat)
    requires from < |frames| && !frames[from].isOnTrack && (from == 0 || frames[from - 1].isOnTrack)
    ensures IsMaximalRun(frames, from, to)
  {
    var rest := frames[from..];
    to := from + LeadLength(rest);
    assert forall k :: from <= k < to ==> frames[k] == rest[..to - from][k - from];
    assert to < |frames| ==> frames[to] == rest[to - from];
  }

  /** The maximal runs from `from` on are the one at `from` and those from its end on. */
  lemma RunsSplit(options: Options, frames: seq<Frame>, from: nat, to: nat, s: Stint)
    requires IsMaximalRun(frames, from, to)
    ensures ReportsRun(options, frames, from, s)
        <==> StintOf(options, frames[from..to]) == [s] || ReportsRun(options, frames, to, s)
  {
    hide StintOf;
    if ReportsRun(options, frames, from, s) {
      var i: nat, j: nat :| from <= i && IsMaximalRun(frames, i, j) && StintOf(options, frames[i..j]) == [s];
      assert i < to ==> i == from && j == to;
    }
  }

  /** The stint reports the frames from `i` up to `j`: the lap, the times, the number and how severe that is. */
  ghost predicate Reports(options: Options, frames: seq<Frame>, i: nat, j: nat, s: Stint)
    requires i < j <= |frames|
  {
    var duration := frames[j - 1].timestampUnixMs - frames[i].timestampUnixMs;
    && s.startMs == frames[i].timestampUnixMs && s.endMs == frames[j - 1].timestampUnixMs
    && s.durationMs == duration >= options.minDurationMs == s.thresholdMs && s.frameCount == j - i
    && (if frames[i].lapNumber >= 0 then s.lapNumber == frames[i].lapNumber else s.lapNumber == 0)
    && (s.severity == High <==> duration >= options.highDurationMs)
    && (s.severity == Low <==> duration < options.mediumDurationMs && duration < options.highDurationMs)
  }

  lemma RunReports(options: Options, frames: seq<Frame>, i: nat, j: nat, s: Stint)
    requires i < j <= |frames|
    ensures StintOf(options, frames[i..j]) == [s] <==> Reports(options, frames, i, j, s)
  {
    assert frames[i..j][0] == frames[i] && frames[i..j][j - i - 1] == frames[j - 1];
  }

  /** In terms of the frames: a stint is reported exactly if it reports a maximal run that lasts long enough, with
      the lap of its first frame and the severity that its duration reaches. */
  lemma StintsReportFrames(options: Options, frames: seq<Frame>, s: Stint)
    ensures s in Stints(options, frames)
            <==> exists i: nat, j: nat :: IsMaximalRun(frames, i, j) && Reports(options, frames, i, j, s)
  {
    StintsReportMaximalRuns(options, frames, s);
    hide Stints, StintOf, IsMaximalRun, Reports;
    forall i: nat, j: nat | IsMaximalRun(frames, i, j)
      ensures i < j <= |frames|
      ensures StintOf(options, frames[i..j]) == [s] <==> Reports(options, frames, i, j, s)
    {
      MaximalRunBounds(frames, i, j);
      RunReports(options, frames, i, j, s);
    }
  }

  lemma MaximalRunBounds(frames: seq<Frame>, i: nat, j: nat)
    requires IsMaximalRun(frames, i, j)
    ensures i < j <= |frames|
  {
  }

  // ----- appending a batch -----

  predicate EndsOffTrack(frames: seq<Frame>) {
    frames != [] && !frames[|frames| - 1].isOnTrack
  }

  /** Where the trailing run of off-track frames starts. */
  function TrailStart(frames: seq<Frame>): (start: nat)
    ensures start <= |frames| && AllOff(frames[start..])
    ensures start > 0 ==> frames[start - 1].isOnTrack
    ensures EndsOffTrack(frames) <==> start < |frames|
  {
    if !EndsOffTrack(frames) then |frames|
    else
      var last := |frames| - 1;
      var start := TrailStart(frames[..last]);
      assert forall i :: start <= i < last ==> frames[i] == frames[..last][start..][i - start];
      start
  }

  function TrailingRun(frames: seq<Frame>): seq<Frame> {
    frames[TrailStart(frames)..]
  }

  function WithoutTrailingRun(frames: seq<Frame>): seq<Frame> {
    frames[..TrailStart(frames)]
  }

  function LeadingRun(frames: seq<Frame>): seq<Frame> {
    frames[..LeadLength(frames)]
  }

  /** The run that is at the front once the trailing run has been joined there: the leading run, or else the
      trailing one. */
  function FrontRun(frames: seq<Frame>): (r: seq<Frame>)
    requires EndsOffTrack(frames)
    ensures r != []
  {
    if LeadingRun(frames) == [] then TrailingRun(frames) else LeadingRun(frames)
  }

  /** One past the last of the first `n` frames that is older than `firstTs`; 0 if there is none. */
  function OlderEnd(frames: seq<Frame>, firstTs: int, n: nat): (end: nat)
    requires n <= |frames|
    ensures end <= n
  {
    if n == 0 || frames[n - 1].timestampUnixMs < firstTs then n else OlderEnd(frames, firstTs, n - 1)
  }

  /** The part of the accumulated frames that is taken to precede the appended ones. When no frame is
      older than the first appended one, all of them are. */
  function PrefixOf(accumulated: seq<Frame>, appended: seq<Frame>): seq<Frame> {
    if appended == [] then accumulated
    else
      var end := OlderEnd(accumulated, appended[0].timestampUnixMs, |accumulated|);
      if end == 0 then accumulated else accumulated[..end]
  }

  function WithTail(accumulated: seq<Frame>, appended: seq<Frame>): seq<Frame> {
    if !EndsOffTrack(accumulated) then appended
    else TrailingRun(PrefixOf(accumulated, appended)) + appended
  }

  method AppendOffTrackTail(accumulated: seq<Frame>, appended: seq<Frame>) returns (result: seq<Frame>)
    ensures result == WithTail(accumulated, appended)
  {
    if |accumulated| == 0 {
      return appended;
    }
    if accumulated[|accumulated| - 1].isOnTrack {
      return appended;
    }
    var prefix := accumulated;
    if |appended| > 0 {
      var end := FindOlderEnd(accumulated, appended[0].timestampUnixMs);
      if end == 0 {
        return appended;
      }
      prefix := accumulated[..end];
      assert accumulated[..|accumulated|] == accumulated;
      if prefix[|prefix| - 1].isOnTrack {
        assert TrailingRun(prefix) == [];
        return appended;
      }
    }
    assert prefix == PrefixOf(accumulated, appended);
    var start := FindTrailStart(prefix);
    result := prefix[start..] + appended;
  }

  method FindOlderEnd(frames: seq<Frame>, firstTs: int) returns (end: nat)
    ensures end == var older := OlderEnd(frames, firstTs, |frames|); if older == 0 then |frames| else older
  {
    end := |frames|;
    var i: nat := |frames|;
    while i > 0
      invariant i <= |frames|
      invariant OlderEnd(frames, firstTs, |frames|) == OlderEnd(frames, firstTs, i)
    {
      i := i - 1;
      if frames[i].timestampUnixMs < firstTs {
        end := i + 1;
        break;
      }
    }
  }

  method FindTrailStart(prefix: seq<Frame>) returns (start: nat)
    requires EndsOffTrack(prefix)
    ensures start == TrailStart(prefix)
  {
    start := |prefix| - 1;
    while start > 0 && !prefix[start - 1].isOnTrack
      invariant start < |prefix|
      invariant forall i :: start <= i < |prefix| ==> !prefix[i].isOnTrack
    {
      start := start - 1;
    }
    TrailIs(prefix, start);
  }

  /** The off-track part of event generation for an append, with the default options. */
  method GenerateForAppend(accumulated: seq<Frame>, appended: seq<Frame>) returns (events: seq<Stint>)
    ensures events == Stints(DEFAULT_OPTIONS, WithTail(accumulated, appended))
  {
    var input := AppendOffTrackTail(accumulated, appended);
    events := OffTrackStintEvents(DEFAULT_OPTIONS, input);
  }

  lemma {:induction false} TrailIs(frames: seq<Frame>, start: nat)
    requires start <= |frames| && forall i :: start <= i < |frames| ==> !frames[i].isOnTrack
    requires start > 0 ==> frames[start - 1].isOnTrack
    ensures TrailStart(frames) == start
  {
    if start < |frames| {
      TrailIs(frames[..|frames| - 1], start);
    }
  }

  // ----- streaming against the whole stream -----

  /** Nothing of a stream that stops on track leaks into what follows it. */
  lemma {:induction false} StintsConcat(options: Options, a: seq<Frame>, b: seq<Frame>)
    requires !EndsOffTrack(a) || b == [] || b[0].isOnTrack
    ensures Stints(options, a + b) == Stints(options, a) + Stints(options, b)
    decreases |a|
  {
    if a == [] {
      assert a + b == b;
    } else if a[0].isOnTrack {
      assert (a + b)[1..] == a[1..] + b;
      StintsConcat(options, a[1..], b);
    } else {
      var n := LeadLength(a);
      assert (a + b)[..n] == a[..n] && (a + b)[n..] == a[n..] + b;
      assert n == |a| ==> a[..n] == a;
      LeadIs(a + b, n);
      StintsConcat(options, a[n..], b);
      ConcatAssociates(StintOf(options, a[..n]), Stints(options, a[n..]), Stints(options, b));
    }
  }

  /** A run of off-track frames in front of an on-track frame, or of nothing. */
  lemma RunInFront(options: Options, run: seq<Frame>, rest: seq<Frame>)
    requires run != [] && AllOff(run) && (rest == [] || rest[0].isOnTrack)
    ensures Stints(options, run + rest) == StintOf(options, run) + Stints(options, rest)
  {
    var all := run + rest;
    assert all[..|run|] == run && all[|run|..] == rest;
    LeadIs(all, |run|);
  }

  lemma TrailSplits(frames: seq<Frame>)
    ensures frames == WithoutTrailingRun(frames) + TrailingRun(frames)
    ensures !EndsOffTrack(WithoutTrailingRun(frames)) && AllOff(TrailingRun(frames))
  {
  }

  lemma LeadSplits(frames: seq<Frame>)
    ensures frames == LeadingRun(frames) + frames[LeadLength(frames)..]
    ensures AllOff(LeadingRun(frames))
  {
    hide LeadLength, AllOff;
  }

  /** The prefix came before the appended frames, and they are accumulated behind it. */
  ghost predicate Appended(accumulated: seq<Frame>, prefix: seq<Frame>, appended: seq<Frame>) {
    && accumulated == prefix + appended
    && appended != []
    && (forall i :: 0 <= i < |prefix| ==> prefix[i].timestampUnixMs < appended[0].timestampUnixMs)
    && Chronological(appended)
  }

  ghost predicate Chronological(frames: seq<Frame>) {
    forall i, j :: 0 <= i < j < |frames| ==> frames[i].timestampUnixMs < frames[j].timestampUnixMs
  }

  lemma {:induction false} OlderEndIs(frames: seq<Frame>, firstTs: int, end: nat, n: nat)
    requires end <= n <= |frames|
    requires end > 0 ==> frames[end - 1].timestampUnixMs < firstTs
    requires forall i :: end <= i < n ==> frames[i].timestampUnixMs >= firstTs
    ensures OlderEnd(frames, firstTs, n) == end
  {
    if n > end { OlderEndIs(frames, firstTs, end, n - 1); }
  }

  lemma PrefixIs(accumulated: seq<Frame>, prefix: seq<Frame>, appended: seq<Frame>)
    requires Appended(accumulated, prefix, appended)
    ensures PrefixOf(accumulated, appended) == if prefix == [] then accumulated else prefix
  {
    assert forall i :: |prefix| <= i < |accumulated| ==> accumulated[i] == appended[i - |prefix|];
    OlderEndIs(accumulated, appended[0].timestampUnixMs, |prefix|, |accumulated|);
    assert accumulated[..|prefix|] == prefix;
  }

  /** The frames that the incremental path looks at: the prefix's trailing run only if the appended frames end off
      track. */
  lemma TailIs(accumulated: seq<Frame>, prefix: seq<Frame>, appended: seq<Frame>)
    requires Appended(accumulated, prefix, appended)
    ensures WithTail(accumulated, appended)
         == (if !EndsOffTrack(appended) then appended
             else TrailingRun(if prefix == [] then appended else prefix) + appended)
  {
    assert accumulated[|accumulated| - 1] == appended[|appended| - 1];
    PrefixIs(accumulated, prefix, appended);
    assert prefix == [] ==> accumulated == appended;
    hide TrailingRun, PrefixOf;
  }

  /** The append reports all that the stream has beyond its prefix without the prefix's trailing run. Where this
      fails, an earlier append may still have reported the missing stint. */
  ghost predicate StreamsExactly(options: Options, accumulated: seq<Frame>, prefix: seq<Frame>, appended: seq<Frame>) {
    Stints(options, accumulated)
      == Stints(options, WithoutTrailingRun(prefix)) + Stints(options, WithTail(accumulated, appended))
  }

  /** Appending to earlier frames: if the new frames end off track, the stints before the prefix's trailing run
      and those of the trimmed input are exactly the stints of the whole stream. */
  lemma StreamingEqualsWhole(options: Options, accumulated: seq<Frame>, prefix: seq<Frame>, appended: seq<Frame>)
    requires Appended(accumulated, prefix, appended) && prefix != []
    requires EndsOffTrack(appended)
    ensures StreamsExactly(options, accumulated, prefix, appended)
  {
    TailIs(accumulated, prefix, appended);
    TrailSplits(prefix);
    var body, run := WithoutTrailingRun(prefix), TrailingRun(prefix);
    hide TrailingRun, WithoutTrailingRun, WithTail, Stints;
    ConcatAssociates(body, run, appended);
    StintsConcat(options, body, run + appended);
  }

  /** Whether the new frames end off track or not, the append reports everything from the prefix's trailing run on
      precisely if they do, or the prefix ends on track, or the run that goes on from the prefix is too short. */
  lemma StreamingExactCondition(options: Options, accumulated: seq<Frame>, prefix: seq<Frame>, appended: seq<Frame>)
    requires Appended(accumulated, prefix, appended) && prefix != []
    ensures StreamsExactly(options, accumulated, prefix, appended)
        <==> EndsOffTrack(appended) || !EndsOffTrack(prefix)
             || DurationMs(TrailingRun(prefix) + LeadingRun(appended)) < options.minDurationMs
  {
    TailIs(accumulated, prefix, appended);
    TrailSplits(prefix);
    var body, run := WithoutTrailingRun(prefix), TrailingRun(prefix);
    hide WithTail, Stints, TrailingRun, WithoutTrailingRun, StintOf, LeadingRun;
    ConcatAssociates(body, run, appended);
    BodyDrops(options, body, run + appended, WithTail(accumulated, appended));
    if !EndsOffTrack(appended) {
      TrailNonEmpty(prefix, appended);
      if run == [] {
        assert run + appended == appended;
      } else {
        BoundaryStint(options, run, appended);
      }
    }
  }

  lemma TrailNonEmpty(prefix: seq<Frame>, appended: seq<Frame>)
    requires Appended(prefix + appended, prefix, appended)
    ensures TrailingRun(prefix) != [] <==> EndsOffTrack(prefix)
    ensures TrailingRun(prefix) != [] ==> TrailingRun(prefix)[0].timestampUnixMs < appended[0].timestampUnixMs
  {
  }

  /** A part that stops on track can be dropped from both sides. */
  lemma BodyDrops(options: Options, body: seq<Frame>, x: seq<Frame>, y: seq<Frame>)
    requires !EndsOffTrack(body)
    ensures Stints(options, body + x) == Stints(options, body) + Stints(options, y)
        <==> Stints(options, x) == Stints(options, y)
  {
    StintsConcat(options, body, x);
    hide Stints;
    SamePrefix(Stints(options, body), Stints(options, x), Stints(options, y));
  }

  lemma SamePrefix<T>(a: seq<T>, b: seq<T>, c: seq<T>)
    ensures a + b == a + c <==> b == c
  {
    if a + b == a + c {
      assert b == (a + b)[|a|..] && c == (a + c)[|a|..];
    }
  }

  /** Leaving an earlier off-track run out changes the report exactly if the joined run is long enough. */
  lemma BoundaryStint(options: Options, run: seq<Frame>, appended: seq<Frame>)
    requires run != [] && AllOff(run) && appended != [] && !EndsOffTrack(appended)
    requires run[0].timestampUnixMs < appended[0].timestampUnixMs
    ensures Stints(options, run + appended) == Stints(options, appended)
        <==> DurationMs(run + LeadingRun(appended)) < options.minDurationMs
  {
    var lead, rest := LeadingRun(appended), appended[LeadLength(appended)..];
    LeadSplits(appended);
    assert run + appended == (run + lead) + rest;
    RunInFront(options, run + lead, rest);
    if lead == [] {
      assert rest == appended;
      SameSuffix(StintOf(options, run + lead), [], Stints(options, rest));
    } else {
      RunInFront(options, lead, rest);
      SameSuffix(StintOf(options, run + lead), StintOf(options, lead), Stints(options, rest));
    }
  }

  lemma SameSuffix<T>(a: seq<T>, b: seq<T>, c: seq<T>)
    ensures a + c == b + c <==> a == b
  {
    if a + c == b + c {
      assert |a| == |b|;
      assert a == (a + c)[..|a|] && b == (b + c)[..|b|];
    }
  }

  /** Joining the trailing run to the front is harmless exactly if the run at the front is too short to report. */
  lemma FrontStint(options: Options, appended: seq<Frame>)
    requires Chronological(appended) && EndsOffTrack(appended) && options.minDurationMs > 0
    ensures Stints(options, appended) == Stints(options, TrailingRun(appended) + appended)
        <==> DurationMs(FrontRun(appended)) < options.minDurationMs
  {
    var lead, rest, run := LeadingRun(appended), appended[LeadLength(appended)..], TrailingRun(appended);
    LeadSplits(appended);
    LeadStops(appended);
    TrailSplits(appended);
    hide *;
    OwnTail(options, appended, lead, rest, run);
    FrontOf(options, appended);
    if lead != [] {
      FrontRuns(options, appended, lead, run);
    }
  }

  lemma LeadStops(frames: seq<Frame>)
    ensures var rest := frames[LeadLength(frames)..]; rest == [] || rest[0].isOnTrack
    ensures EndsOffTrack(frames) ==> frames != [] && TrailingRun(frames) != []
  {
  }

  lemma FrontOf(options: Options, frames: seq<Frame>)
    requires EndsOffTrack(frames)
    ensures FrontRun(frames) == if LeadingRun(frames) == [] then TrailingRun(frames) else LeadingRun(frames)
    ensures DurationMs(FrontRun(frames)) < options.minDurationMs <==> StintOf(options, FrontRun(frames)) == []
  {
  }

  lemma EmptyPrefix(s: seq<Frame>)
    ensures [] + s == s && WithoutTrailingRun([]) == [] && !EndsOffTrack([])
  {
  }

  /** A session's first batch, stored before events are made: nothing precedes it, so the code joins its own
      trailing run to its front. That is harmless exactly if it ends on track, or the run that ends up at the
      front (its own leading run, or else the trailing one) is too short to report. */
  lemma FirstBatchExactCondition(options: Options, appended: seq<Frame>)
    requires Appended(appended, [], appended) && options.minDurationMs > 0
    ensures StreamsExactly(options, appended, [], appended)
        <==> !EndsOffTrack(appended) || DurationMs(FrontRun(appended)) < options.minDurationMs
  {
    TailIs(appended, [], appended);
    EmptyPrefix(appended);
    hide WithTail, Stints, DurationMs, Chronological, TrailingRun, WithoutTrailingRun, EndsOffTrack, FrontRun;
    BodyDrops(options, [], appended, WithTail(appended, appended));
    if EndsOffTrack(appended) {
      FrontStint(options, appended);
    }
  }

  /** With its trailing run joined to its front, a batch reports the same exactly if the front stint does. */
  lemma OwnTail(options: Options, appended: seq<Frame>, lead: seq<Frame>, rest: seq<Frame>, run: seq<Frame>)
    requires appended == lead + rest && appended != [] && AllOff(lead) && (rest == [] || rest[0].isOnTrack)
    requires run != [] && AllOff(run)
    ensures Stints(options, appended) == Stints(options, run + appended)
        <==> (if lead == [] then StintOf(options, run) == []
              else StintOf(options, lead) == StintOf(options, run + lead))
  {
    hide Stints, StintOf;
    if lead == [] {
      assert rest == appended;
      RunInFront(options, run, appended);
      SameSuffix([], StintOf(options, run), Stints(options, appended));
    } else {
      RunInFront(options, lead, rest);
      ConcatAssociates(run, lead, rest);
      RunInFront(options, run + lead, rest);
      SameSuffix(StintOf(options, lead), StintOf(options, run + lead), Stints(options, rest));
    }
  }

  lemma FrontRuns(options: Options, appended: seq<Frame>, lead: seq<Frame>, run: seq<Frame>)
    requires Chronological(appended) && EndsOffTrack(appended) && options.minDurationMs > 0
    requires lead == LeadingRun(appended) != [] && run == TrailingRun(appended)
    ensures StintOf(options, lead) == StintOf(options, run + lead) <==> DurationMs(lead) < options.minDurationMs
  {
    var n, start := LeadLength(appended), TrailStart(appended);
    if n == |appended| {
      TrailIs(appended, 0);
      assert lead == run == appended;
    } else {
      TrailAfterLead(appended);
      assert run[0] == appended[start] && lead[n - 1] == appended[n - 1];
      assert DurationMs(run + lead) < 0;
    }
  }

  lemma TrailAfterLead(frames: seq<Frame>)
    requires LeadLength(frames) < |frames|
    ensures LeadLength(frames) < TrailStart(frames)
  {
    if TrailStart(frames) <= LeadLength(frames) {
      TrailOff(frames, LeadLength(frames));
    }
  }

  lemma TrailOff(frames: seq<Frame>, i: nat)
    requires TrailStart(frames) <= i < |frames|
    ensures !frames[i].isOnTrack
  {
    assert frames[i] == TrailingRun(frames)[i - TrailStart(frames)];
  }
}
