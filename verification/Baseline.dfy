/** The observed-telemetry baseline of a layout: which batches count as clean laps, and what they measure. */
module Baseline {
  import opened Prelude
  import opened Reals
  import opened Geometry
  import opened Centerlines
  import opened Telemetry
  import opened Catalog
  import opened Statistics
  import Ordering

  datatype BaselineError =
    | BlankLayoutID
    | NoSamples
    | LayoutNotFound
    | MissingSessionID
    | EmptyFrames
    | InvalidTimestamp
    | NonMonotonicTimestamp
    | NoAcceptedSamples

  datatype Report = Report(
    layoutId: string,
    layoutName: string,
    catalogLengthMeters: real,
    sampleCount: int,
    acceptedLapCount: int,
    rejectedLapCount: int,
    source: Summary,
    avgDeltaMeters: real,
    avgDeltaPct: Option<real>)

  // ----- cleaned positions -----

  function Position(frame: Frame): Point {
    Point(frame.positionX, frame.positionY, frame.positionZ)
  }

  function Positions(frames: seq<Frame>): (r: seq<Point>)
    ensures |r| == |frames|
  {
    seq(|frames|, k requires 0 <= k < |frames| => Position(frames[k]))
  }

  /** The points without those that repeat the point kept before them. */
  function Cleaned(points: seq<Point>): seq<Point> {
    if points == [] then []
    else
      var n := |points| - 1;
      var before := Cleaned(points[..n]);
      if before != [] && before[|before| - 1] == points[n] then before else before + [points[n]]
  }

  method CleanupTelemetryPoints(frames: seq<Frame>) returns (points: seq<Point>)
    ensures points == Cleaned(Positions(frames))
  {
    points := [];
    var last: Option<Point> := None;
    for i := 0 to |frames|
      invariant points == Cleaned(Positions(frames)[..i])
      invariant last == if points == [] then None else Some(points[|points| - 1])
    {
      assert Positions(frames)[..i + 1][..i] == Positions(frames)[..i];
      var point := Position(frames[i]);
      if last == Some(point) {
        continue;
      }
      points := points + [point];
      last := Some(point);
    }
    assert Positions(frames)[..|frames|] == Positions(frames);
  }

  /** The length of the path through the points; zero for fewer than two. */
  function PolylineLength(sqrt: real -> real, points: seq<Point>): real {
    if |points| < 2 then 0.0 else PathLength(sqrt, points, |points| - 1)
  }

  method MeasurePolyline(sqrt: real -> real, points: seq<Point>) returns (total: real)
    ensures total == PolylineLength(sqrt, points)
  {
    if |points| < 2 {
      return 0.0;
    }
    total := 0.0;
    for i := 0 to |points| - 1
      invariant total == PathLength(sqrt, points, i)
    {
      total := total + Distance(sqrt, points[i], points[i + 1]);
    }
  }

  lemma {:induction false} PathPrefix(sqrt: real -> real, points: seq<Point>, longer: seq<Point>, hops: nat)
    requires hops < |points| <= |longer| && longer[..|points|] == points
    ensures PathLength(sqrt, points, hops) == PathLength(sqrt, longer, hops)
  {
    assert longer[..|points|][hops] == longer[hops];
    if hops > 0 {
      assert longer[..|points|][hops - 1] == longer[hops - 1];
      PathPrefix(sqrt, points, longer, hops - 1);
    }
  }

  lemma PolylineStep(sqrt: real -> real, points: seq<Point>, next: Point)
    requires points != []
    ensures PolylineLength(sqrt, points + [next])
            == PolylineLength(sqrt, points) + Distance(sqrt, points[|points| - 1], next)
  {
    assert (points + [next])[..|points|] == points;
    PathPrefix(sqrt, points, points + [next], |points| - 1);
    hide Distance;
  }

  /** Cleaning keeps the ends, leaves no immediate repetition, and does not change the length of the path. */
  lemma {:induction false} CleanedSpec(sqrt: real -> real, points: seq<Point>)
    requires IsSqrt(sqrt)
    ensures var clean := Cleaned(points);
            && (clean == [] <==> points == [])
            && (points != [] ==> clean[0] == points[0] && clean[|clean| - 1] == points[|points| - 1])
            && (forall k :: 0 <= k < |clean| - 1 ==> clean[k] != clean[k + 1])
            && PolylineLength(sqrt, clean) == PolylineLength(sqrt, points)
  {
    if points != [] {
      var n := |points| - 1;
      CleanedSpec(sqrt, points[..n]);
      if n > 0 {
        var before := Cleaned(points[..n]);
        assert points[..n] + [points[n]] == points;
        PolylineStep(sqrt, points[..n], points[n]);
        PolylineStep(sqrt, before, points[n]);
        DistanceFacts(sqrt, points[n - 1], points[n]);
        hide IsSqrt, Distance;
      }
    }
  }

  /** One more point is dropped exactly if it repeats the point reported before it. */
  lemma CleanedNext(points: seq<Point>, next: Point)
    ensures Cleaned([]) == []
    ensures Cleaned(points + [next])
            == Cleaned(points) + (if points != [] && points[|points| - 1] == next then [] else [next])
  {
    assert (points + [next])[..|points|] == points;
    CleanedEnd(points);
  }

  lemma {:induction false} CleanedEnd(points: seq<Point>)
    ensures points == [] <==> Cleaned(points) == []
    ensures points != [] ==> Cleaned(points)[|Cleaned(points)| - 1] == points[|points| - 1]
  {
    if points != [] {
      CleanedEnd(points[..|points| - 1]);
    }
  }

  const CLOSED_LOOP_GAP_METERS := 25.0

  /** The path returns to within 25 meters of its start, or 5% of its length if that is more. */
  ghost predicate ReturnsToStart(sqrt: real -> real, points: seq<Point>) {
    && |points| >= 3
    && PolylineLength(sqrt, points) > 0.0
    && (|| Distance(sqrt, points[0], points[|points| - 1]) <= CLOSED_LOOP_GAP_METERS
        || Distance(sqrt, points[0], points[|points| - 1]) <= PolylineLength(sqrt, points) * 0.05)
  }

  method IsClosedLoop(sqrt: real -> real, points: seq<Point>) returns (closed: bool)
    ensures closed <==> ReturnsToStart(sqrt, points)
  {
    if |points| < 3 {
      return false;
    }
    var gap := Distance(sqrt, points[0], points[|points| - 1]);
    var total := MeasurePolyline(sqrt, points);
    if total <= 0.0 {
      return false;
    }
    return gap <= Max(CLOSED_LOOP_GAP_METERS, total * 0.05);
  }

  method IsSampleAccepted(sqrt: real -> real, cleaned: seq<Point>) returns (accepted: bool)
    ensures accepted <==> ReturnsToStart(sqrt, cleaned)
  {
    if |cleaned| < 3 {
      return false;
    }
    var closed := IsClosedLoop(sqrt, cleaned);
    if !closed {
      return false;
    }
    var pathLength := MeasurePolyline(sqrt, cleaned);
    return pathLength > 0.0;
  }

  // ----- requests -----

  predicate IsSpace(c: char) {
    c in "\t\n\U{000B}\U{000C}\r \U{0085}\U{00A0}\U{1680}\U{2028}\U{2029}\U{202F}\U{205F}\U{3000}"
    || '\U{2000}' <= c <= '\U{200A}'
  }

  /** `strings.TrimSpace` would leave nothing. */
  predicate Blank(s: string) {
    forall k :: 0 <= k < |s| ==> IsSpace(s[k])
  }

  ghost function FrameFault(frames: seq<Frame>, i: nat): Option<BaselineError>
    requires i < |frames|
  {
    if frames[i].timestampUnixMs <= 0 then Some(InvalidTimestamp)
    else if i > 0 && frames[i].timestampUnixMs <= frames[i - 1].timestampUnixMs then Some(NonMonotonicTimestamp)
    else None
  }

  /** The first fault of the frames from `i` on. */
  ghost function FramesFault(frames: seq<Frame>, i: nat): Option<BaselineError>
    requires i <= |frames|
    decreases |frames| - i
  {
    if i == |frames| then None
    else if FrameFault(frames, i).Some? then FrameFault(frames, i)
    else FramesFault(frames, i + 1)
  }

  ghost function RequestFault(request: Batch): Option<BaselineError> {
    if Blank(request.sessionId) then Some(MissingSessionID)
    else if request.frames == [] then Some(EmptyFrames)
    else FramesFault(request.frames, 0)
  }

  method ValidateBuildRequest(request: Batch) returns (fault: Option<BaselineError>)
    ensures fault == RequestFault(request)
  {
    if Blank(request.sessionId) {
      return Some(MissingSessionID);
    }
    if |request.frames| == 0 {
      return Some(EmptyFrames);
    }
    var previousTimestamp := 0;
    for i := 0 to |request.frames|
      invariant i > 0 ==> previousTimestamp == request.frames[i - 1].timestampUnixMs
      invariant FramesFault(request.frames, 0) == FramesFault(request.frames, i)
    {
      var timestamp := request.frames[i].timestampUnixMs;
      if timestamp <= 0 {
        return Some(InvalidTimestamp);
      }
      if i > 0 && timestamp <= previousTimestamp {
        return Some(NonMonotonicTimestamp);
      }
      previousTimestamp := timestamp;
    }
    return None;
  }

  /** A request is valid exactly if it names a session and its timestamps are positive and strictly increase. */
  lemma RequestValid(request: Batch)
    ensures RequestFault(request).None?
            <==> !Blank(request.sessionId) && request.frames != [] && request.frames[0].timestampUnixMs > 0
                 && forall i, j :: 0 <= i < j < |request.frames| ==>
                      request.frames[i].timestampUnixMs < request.frames[j].timestampUnixMs
  {
    if request.frames != [] {
      FramesValid(request.frames, 0);
    }
  }

  ghost predicate IncreasingFrom(frames: seq<Frame>, first: nat) {
    forall i, j :: first <= i < j < |frames| ==> frames[i].timestampUnixMs < frames[j].timestampUnixMs
  }

  lemma {:induction false} FramesValid(frames: seq<Frame>, i: nat)
    requires i < |frames|
    ensures FramesFault(frames, i).None?
            <==> FrameFault(frames, i).None? && frames[i].timestampUnixMs > 0 && IncreasingFrom(frames, i)
    decreases |frames| - i
  {
    if i + 1 < |frames| {
      FramesValid(frames, i + 1);
    }
  }

  // ----- the report -----

  /** The first of the entries whose layout has the id. */
  function FirstEntry(entries: seq<Entry>, id: string): Option<Entry> {
    if entries == [] then None
    else
      var n := |entries| - 1;
      var before := FirstEntry(entries[..n], id);
      if before.Some? then before else if entries[n].layout.id == id then Some(entries[n]) else None
  }

  lemma {:induction false} FirstEntrySpec(entries: seq<Entry>, id: string)
    ensures FirstEntry(entries, id).None? <==> forall k :: 0 <= k < |entries| ==> entries[k].layout.id != id
    ensures FirstEntry(entries, id).Some? ==>
              exists k :: 0 <= k < |entries| && FirstEntry(entries, id) == Some(entries[k])
                          && entries[k].layout.id == id && forall j :: 0 <= j < k ==> entries[j].layout.id != id
  {
    if entries != [] {
      var before := entries[..|entries| - 1];
      FirstEntrySpec(before, id);
      assert forall k :: 0 <= k < |before| ==> before[k] == entries[k];
    }
  }

  lemma {:induction false} FirstEntryStays(a: seq<Entry>, b: seq<Entry>, id: string)
    requires FirstEntry(a, id).Some?
    ensures FirstEntry(a + b, id) == FirstEntry(a, id)
  {
    if b == [] {
      assert a + b == a;
    } else {
      var n := |b| - 1;
      FirstEntryStays(a, b[..n], id);
      assert (a + b)[..|a| + n] == a + b[..n];
    }
  }

  lemma FirstEntryNext(entries: seq<Entry>, next: Entry, id: string)
    requires FirstEntry(entries, id).None?
    ensures FirstEntry(entries + [next], id) == if next.layout.id == id then Some(next) else None
  {
    assert (entries + [next])[..|entries|] == entries;
  }

  /** Where the nested loops stand: the tracks before the `i`-th, and `j` of its layouts. */
  function Visited(tracks: seq<Track>, i: nat, j: nat): seq<Entry>
    requires i < |tracks| && j <= |tracks[i].layouts|
  {
    Entries(tracks[..i]) + TrackEntries(tracks[i])[..j]
  }

  lemma VisitedNext(tracks: seq<Track>, i: nat, j: nat)
    requires i < |tracks| && j < |tracks[i].layouts|
    ensures Visited(tracks, i, j + 1)
            == Visited(tracks, i, j) + [Entry(tracks[i].id, tracks[i].name, tracks[i].sources, tracks[i].layouts[j])]
  {
    hide Entries;
  }

  lemma VisitedTrack(tracks: seq<Track>, i: nat)
    requires i < |tracks|
    ensures Visited(tracks, i, 0) == Entries(tracks[..i])
    ensures Visited(tracks, i, |tracks[i].layouts|) == Entries(tracks[..i + 1])
  {
    assert tracks[..i + 1][..i] == tracks[..i];
  }

  lemma VisitedIsPrefix(tracks: seq<Track>, i: nat, j: nat) returns (rest: seq<Entry>)
    requires i < |tracks| && j <= |tracks[i].layouts|
    ensures Entries(tracks) == Visited(tracks, i, j) + rest
  {
    var later := Entries(tracks[i + 1..]);
    Ordering.FlatConcat(TrackEntries, tracks[..i + 1], tracks[i + 1..]);
    assert tracks[..i + 1] + tracks[i + 1..] == tracks && tracks[..i + 1][..i] == tracks[..i];
    rest := TrackEntries(tracks[i])[j..] + later;
    hide TrackEntries, Ordering.Flat;
    JoinedRest(Entries(tracks[..i]), TrackEntries(tracks[i]), j, later);
  }

  lemma JoinedRest(a: seq<Entry>, b: seq<Entry>, j: nat, c: seq<Entry>)
    requires j <= |b|
    ensures (a + b) + c == (a + b[..j]) + (b[j..] + c)
  {
  }

  method FindSeedLayout(tracks: seq<Track>, id: string) returns (r: Option<Entry>)
    ensures r == FirstEntry(Entries(tracks), id)
  {
    hide FirstEntry, Visited, Entries, TrackEntries;
    NoEntry(id);
    for i := 0 to |tracks|
      invariant FirstEntry(Entries(tracks[..i]), id).None?
    {
      var track := tracks[i];
      VisitedTrack(tracks, i);
      for j := 0 to |track.layouts|
        invariant FirstEntry(Visited(tracks, i, j), id).None?
      {
        var entry := Entry(track.id, track.name, track.sources, track.layouts[j]);
        VisitedNext(tracks, i, j);
        FirstEntryNext(Visited(tracks, i, j), entry, id);
        if track.layouts[j].id == id {
          ghost var rest := VisitedIsPrefix(tracks, i, j + 1);
          FirstEntryStays(Visited(tracks, i, j + 1), rest, id);
          return Some(entry);
        }
      }
    }
    assert tracks[..|tracks|] == tracks;
    return None;
  }

  lemma NoEntry(id: string)
    ensures FirstEntry(Entries([]), id) == None
  {
  }

  /** The length of the path that a batch drove. */
  function LapLength(sqrt: real -> real, request: Batch): real {
    PolylineLength(sqrt, Cleaned(Positions(request.frames)))
  }

  ghost predicate IsCleanLap(sqrt: real -> real, request: Batch) {
    ReturnsToStart(sqrt, Cleaned(Positions(request.frames)))
  }

  /** The lengths of the accepted laps, in their order. */
  ghost function AcceptedLengths(sqrt: real -> real, requests: seq<Batch>): (r: seq<real>)
    ensures |r| <= |requests|
  {
    if requests == [] then []
    else
      var n := |requests| - 1;
      var before := AcceptedLengths(sqrt, requests[..n]);
      if IsCleanLap(sqrt, requests[n]) then before + [LapLength(sqrt, requests[n])] else before
  }

  /** The first fault of the requests from `i` on. */
  ghost function RequestsFault(requests: seq<Batch>, i: nat): Option<BaselineError>
    requires i <= |requests|
    decreases |requests| - i
  {
    if i == |requests| then None
    else if RequestFault(requests[i]).Some? then RequestFault(requests[i])
    else RequestsFault(requests, i + 1)
  }

  /** Every batch is either accepted or rejected; the source summary is that of the accepted lengths, and the
      average delta is the average length less the catalog's, also as a percentage of it. */
  ghost predicate IsReport(sqrt: real -> real, requests: seq<Batch>, layout: Layout, report: Report) {
    && report.layoutId == layout.id && report.layoutName == layout.name
    && report.catalogLengthMeters == layout.lengthMeters
    && report.sampleCount == |requests| == report.acceptedLapCount + report.rejectedLapCount
    && report.acceptedLapCount == |AcceptedLengths(sqrt, requests)| > 0
    && Summarizes(report.source, AcceptedLengths(sqrt, requests))
    && report.avgDeltaMeters == report.source.avg - layout.lengthMeters
    && (report.avgDeltaPct.Some? <==> layout.lengthMeters > 0.0)
    && (layout.lengthMeters > 0.0 ==>
          Times(report.avgDeltaPct.value, layout.lengthMeters) == Times(100.0, report.avgDeltaMeters))
  }

  /** The percentage, or `None` where the division by the length is not a number. */
  function DeltaPct(telemetryPathMeters: real, catalogLengthMeters: real): Option<real> {
    if catalogLengthMeters <= 0.0 then None
    else Some((telemetryPathMeters - catalogLengthMeters) / catalogLengthMeters * 100.0)
  }

  lemma PctScaled(v: real, length: real)
    requires length > 0.0
    ensures DeltaPct(v, length) == Some(Times(100.0 / length, v - length))
  {
    var q := Quotient(v - length, length);
    var factor := Quotient(100.0, length);
    TimesAssociates(length, factor, v - length);
    TimesAssociates(length, q, 100.0);
    TimesCommutes(v - length, 100.0);
    EqualFactors(length, Times(q, 100.0), Times(factor, v - length));
    assert DeltaPct(v, length).value == Times(q, 100.0);
    hide Times, DeltaPct;
  }

  lemma ScaledAppend(values: seq<real>, next: real, factor: real, offset: real)
    ensures Scaled(values + [next], factor, offset) == Scaled(values, factor, offset) + [Times(factor, next - offset)]
    ensures Scaled([], factor, offset) == []
  {
    hide Times;
  }

  lemma AcceptedStep(sqrt: real -> real, requests: seq<Batch>, i: nat)
    requires i < |requests|
    ensures AcceptedLengths(sqrt, requests[..i + 1])
            == if IsCleanLap(sqrt, requests[i]) then AcceptedLengths(sqrt, requests[..i])
              + [LapLength(sqrt, requests[i])]
               else AcceptedLengths(sqrt, requests[..i])
  {
    assert requests[..i + 1][..i] == requests[..i];
    hide IsCleanLap, LapLength;
  }

  method MeasureLaps(sqrt: real -> real, requests: seq<Batch>, length: real)
    returns (fault: Option<BaselineError>, sourceLengths: seq<real>, deltas: seq<real>, deltaPcts: seq<real>)
    ensures fault == RequestsFault(requests, 0)
    ensures fault.None? ==>
              && sourceLengths == AcceptedLengths(sqrt, requests) && deltas == Scaled(sourceLengths, 1.0, length)
              && (length > 0.0 ==> deltaPcts == Scaled(sourceLengths, 100.0 / length, length))
  {
    sourceLengths, deltas, deltaPcts := [], [], [];
    ScaledAppend([], 0.0, 1.0, length);
    ScaledAppend([], 0.0, if length > 0.0 then 100.0 / length else 0.0, length);
    assert AcceptedLengths(sqrt, requests[..0]) == [];
    hide RequestFault, PolylineLength, ReturnsToStart, Times, Scaled, AcceptedLengths;
    for i := 0 to |requests|
      invariant RequestsFault(requests, 0) == RequestsFault(requests, i)
      invariant sourceLengths == AcceptedLengths(sqrt, requests[..i])
      invariant deltas == Scaled(sourceLengths, 1.0, length)
      invariant length > 0.0 ==> deltaPcts == Scaled(sourceLengths, 100.0 / length, length)
    {
      AcceptedStep(sqrt, requests, i);
      fault := ValidateBuildRequest(requests[i]);
      if fault.Some? {
        return;
      }
      var cleaned := CleanupTelemetryPoints(requests[i].frames);
      var accepted := IsSampleAccepted(sqrt, cleaned);
      if !accepted {
        continue;
      }
      var sourcePathLengthMeters := MeasurePolyline(sqrt, cleaned);
      TimesUnits(sourcePathLengthMeters - length);
      ScaledAppend(sourceLengths, sourcePathLengthMeters, 1.0, length);
      sourceLengths := sourceLengths + [sourcePathLengthMeters];
      deltas := deltas + [sourcePathLengthMeters - length];
      if length > 0.0 {
        PctScaled(sourcePathLengthMeters, length);
        ScaledAppend(sourceLengths[..|sourceLengths| - 1], sourcePathLengthMeters, 100.0 / length, length);
      }
      hide DeltaPct;
      var pct := DeltaPct(sourcePathLengthMeters, length);
      if pct.Some? {
        deltaPcts := deltaPcts + [pct.value];
      }
    }
    assert requests[..|requests|] == requests;
    fault := None;
  }

  method BuildTelemetryBaseline(sqrt: real -> real, requests: seq<Batch>, layoutId: string, tracks: seq<Track>)
    returns (r: Result<Report, BaselineError>)
    requires IsSqrt(sqrt)
    ensures r.Err? ==>
              r.error == if Blank(layoutId) then BlankLayoutID
                         else if requests == [] then NoSamples
                         else if FirstEntry(Entries(tracks), layoutId).None? then LayoutNotFound
                         else if RequestsFault(requests, 0).Some? then RequestsFault(requests, 0).value
                         else NoAcceptedSamples
    ensures r.Ok? <==> !Blank(layoutId) && requests != [] && FirstEntry(Entries(tracks), layoutId).Some?
                       && RequestsFault(requests, 0).None? && AcceptedLengths(sqrt, requests) != []
    ensures r.Ok? ==> IsReport(sqrt, requests, FirstEntry(Entries(tracks), layoutId).value.layout, r.value)
  {
    if Blank(layoutId) {
      return Err(BlankLayoutID);
    }
    if |requests| == 0 {
      return Err(NoSamples);
    }
    var found := FindSeedLayout(tracks, layoutId);
    if found.None? {
      return Err(LayoutNotFound);
    }
    var layout := found.value.layout;
    var length := layout.lengthMeters;
    hide RequestsFault, IsSqrt, FirstEntry, AcceptedLengths, Blank, Summarizes, Times;
    var fault, sourceLengths, deltas, deltaPcts := MeasureLaps(sqrt, requests, length);
    if fault.Some? {
      return Err(fault.value);
    }
    if |sourceLengths| == 0 {
      return Err(NoAcceptedSamples);
    }
    var source := Summarize(sqrt, sourceLengths);
    var delta := Summarize(sqrt, deltas);
    var deltaPct := Summarize(sqrt, deltaPcts);
    AverageDelta(source.value, sourceLengths, length, delta.value);
    if length > 0.0 {
      AveragePct(source.value, sourceLengths, length, deltaPct.value);
    }
    var report := Report(layout.id, layout.name, length, |requests|, |sourceLengths|, |requests| - |sourceLengths|,
                         source.value, delta.value.avg,
                         if length > 0.0 then Some(deltaPct.value.avg) else None);
    assert IsReport(sqrt, requests, layout, report);
    return Ok(report);
  }

  lemma AverageDelta(source: Summary, lengths: seq<real>, length: real, delta: Summary)
    requires lengths != [] && Summarizes(source, lengths) && Summarizes(delta, Scaled(lengths, 1.0, length))
    ensures delta.avg == source.avg - length
  {
    MeanScaled(source, lengths, 1.0, length, delta);
    TimesUnits(source.avg - length);
    hide Times;
  }

  lemma AveragePct(source: Summary, lengths: seq<real>, length: real, pct: Summary)
    requires lengths != [] && length > 0.0
    requires Summarizes(source, lengths) && Summarizes(pct, Scaled(lengths, 100.0 / length, length))
    ensures Times(pct.avg, length) == Times(100.0, source.avg - length)
  {
    var factor := Quotient(100.0, length);
    MeanScaled(source, lengths, factor, length, pct);
    hide Summarizes;
    TimesAssociates(length, factor, source.avg - length);
    TimesCommutes(length, pct.avg);
    hide Times;
  }
}
