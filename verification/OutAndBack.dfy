/** A batch that the default options turn into a rejected centerline: out along a straight, back, and half way out. */
module OutAndBack {
  import opened Prelude
  import opened Reals
  import opened Geometry
  import opened Centerlines
  import opened Telemetry
  import opened Catalog
  import opened Resampling
  import Smoothing
  import Rdp
  import Baseline
  import Pipeline

  // ----- points on a straight -----

  function On(x: real): Point {
    Point(x, 0.0, 0.0)
  }

  lemma DistanceOn(sqrt: real -> real, x: real, y: real)
    requires IsSqrt(sqrt)
    ensures Distance(sqrt, On(x), On(y)) == Abs(y - x)
  {
    var d, dx := Distance(sqrt, On(x), On(y)), Abs(y - x);
    DistanceFacts(sqrt, On(x), On(y));
    TimesNegated(y - x, y - x);
    TimesNegated(x - y, y - x);
    assert DistanceSquared(On(x), On(y)) == Times(dx, dx);
    hide IsSqrt, Distance, DistanceSquared;
    if d < dx {
      SquareStrict(d, dx);
    }
    if dx < d {
      SquareStrict(dx, d);
    }
  }

  function Driven(): seq<Point> {
    [On(0.0), On(150.0), On(0.0), On(75.0)]
  }

  function FrameOn(timestampUnixMs: int, x: real): Frame {
    Frame(timestampUnixMs, 0.0, 0.0, 0, 0.0, 0.0, 0.0, 0.0, x, 0.0, 0.0, None, None, None, None, None, None, None,
          1, 0, None, None, true)
  }

  function Frames(): seq<Frame> {
    [FrameOn(1, 0.0), FrameOn(2, 150.0), FrameOn(3, 0.0), FrameOn(4, 75.0)]
  }

  // ----- the stages -----

  lemma CleanedNext(points: seq<Point>, next: Point)
    requires Baseline.Cleaned(points) == points && points != [] && points[|points| - 1] != next
    ensures Baseline.Cleaned(points + [next]) == points + [next]
  {
    assert (points + [next])[..|points|] == points;
  }

  lemma FirstCleaned(p: Point)
    ensures Baseline.Cleaned([p]) == [p]
  {
    assert [p][..0] == [];
  }

  lemma Displays(a: Point, b: Point, c: Point, d: Point)
    ensures [a] + [b] == [a, b] && [a, b] + [c] == [a, b, c] && [a, b, c] + [d] == [a, b, c, d]
  {
  }

  lemma FramesCleaned()
    ensures Baseline.Cleaned(Baseline.Positions(Frames())) == Driven()
  {
    assert Baseline.Positions(Frames()) == Driven();
    FirstCleaned(On(0.0));
    Displays(On(0.0), On(150.0), On(0.0), On(75.0));
    hide Baseline.Cleaned;
    CleanedNext([On(0.0)], On(150.0));
    CleanedNext([On(0.0), On(150.0)], On(0.0));
    CleanedNext([On(0.0), On(150.0), On(0.0)], On(75.0));
  }

  /** The path is 375 meters long and ends 75 meters from its start, so it is open. */
  lemma DrivenIsOpen(sqrt: real -> real)
    requires IsSqrt(sqrt)
    ensures !Baseline.ReturnsToStart(sqrt, Driven())
  {
    Displays(On(0.0), On(150.0), On(0.0), On(75.0));
    DistanceOn(sqrt, 0.0, 150.0);
    DistanceOn(sqrt, 150.0, 0.0);
    DistanceOn(sqrt, 0.0, 75.0);
    assert Baseline.PolylineLength(sqrt, [On(0.0)]) == 0.0;
    Baseline.PolylineStep(sqrt, [On(0.0)], On(150.0));
    Baseline.PolylineStep(sqrt, [On(0.0), On(150.0)], On(0.0));
    Baseline.PolylineStep(sqrt, [On(0.0), On(150.0), On(0.0)], On(75.0));
    hide IsSqrt, Distance, Baseline.PolylineLength;
  }

  lemma SumOfThree(points: seq<Point>, axis: Smoothing.Axis, i: nat)
    requires i < |points|
    ensures Smoothing.WindowSum(points, axis, i, 1, 3, false)
            == Smoothing.At(points[if i == 0 then 0 else i - 1], axis) + Smoothing.At(points[i], axis)
               + Smoothing.At(points[if i == |points| - 1 then i else i + 1], axis)
  {
    assert Smoothing.WindowSum(points, axis, i, 1, 0, false) == 0.0;
    assert Smoothing.WindowSum(points, axis, i, 1, 1, false)
           == Smoothing.At(points[Smoothing.WindowIndex(i, -1, |points|, false)], axis);
    assert Smoothing.WindowSum(points, axis, i, 1, 2, false)
           == Smoothing.WindowSum(points, axis, i, 1, 1, false)
              + Smoothing.At(points[Smoothing.WindowIndex(i, 0, |points|, false)], axis);
  }

  lemma SmoothedOn(points: seq<Point>, i: nat, before: real, here: real, after: real)
    requires i < |points| && points[i] == On(here)
    requires points[if i == 0 then 0 else i - 1] == On(before)
    requires points[if i == |points| - 1 then i else i + 1] == On(after)
    ensures Smoothing.SmoothedPoint(points, i, 1, false) == On((before + here + after) / 3.0)
  {
    SumOfThree(points, Smoothing.X, i);
    SumOfThree(points, Smoothing.Y, i);
    SumOfThree(points, Smoothing.Z, i);
    hide Smoothing.WindowSum;
  }

  lemma DrivenSmoothed()
    ensures var r := Smoothing.Smoothed(Driven(), 3, false); r.Ok? && IsSettled(r.value)
  {
    var points := Driven();
    SmoothedOn(points, 0, 0.0, 0.0, 150.0);
    SmoothedOn(points, 1, 0.0, 150.0, 0.0);
    SmoothedOn(points, 2, 150.0, 0.0, 75.0);
    SmoothedOn(points, 3, 0.0, 75.0, 75.0);
    hide Smoothing.SmoothedPoint;
  }

  /** The smoothed points. */
  ghost predicate IsSettled(points: seq<Point>) {
    |points| == 4 && points[0] == On(50.0) && points[1] == On(50.0) && points[2] == On(75.0) && points[3] == On(50.0)
  }

  /** The simplified points. */
  ghost predicate IsKept(points: seq<Point>) {
    |points| == 3 && points[0] == On(50.0) && points[1] == On(75.0) && points[2] == On(50.0)
  }

  /** The start of a segment, and everything before a segment of no length, projects onto that start. */
  lemma ProjectsOnStart(p: Point, a: Point, b: Point)
    requires a == b || p == a
    ensures Projected(p, a, b) == a
  {
    TimesUnits(b.x - a.x);
    TimesUnits(b.y - a.y);
    TimesUnits(b.z - a.z);
    LerpEnds(a, b);
    if a != b {
      QuotientSign(0.0, DistanceSquared(a, b));
    }
    hide Times, Lerp, DistanceSquared;
  }

  lemma DeviationFromStart(sqrt: real -> real, points: seq<Point>, s: nat, e: nat, i: nat, x: real, start: real)
    requires IsSqrt(sqrt) && s < |points| && e < |points| && i < |points|
    requires points[i] == On(x) && points[s] == On(start) && (points[s] == points[e] || points[i] == points[s])
    ensures Rdp.Deviation(sqrt, points, s, e, i) == if x < start then start - x else x - start
  {
    ProjectsOnStart(points[i], points[s], points[e]);
    DistanceOn(sqrt, x, start);
    hide IsSqrt, Distance, Projected;
  }

  /** Of four points with the third far from the segment of the ends, and the second on its way there, the second
      is dropped. */
  lemma DropsSecondOfFour(sqrt: real -> real, points: seq<Point>, epsilon: real)
    requires |points| == 4 && epsilon > 0.0
    requires Rdp.Deviation(sqrt, points, 0, 3, 1) <= epsilon < Rdp.Deviation(sqrt, points, 0, 3, 2)
    requires Rdp.Deviation(sqrt, points, 0, 2, 1) <= epsilon
    ensures Rdp.KeptIndices(sqrt, points, epsilon) == [0, 2, 3]
  {
    hide Rdp.Deviation;
    assert Rdp.FarthestBefore(sqrt, points, 0, 3, 3) == 2;
    assert Rdp.FarthestBefore(sqrt, points, 0, 2, 2) == 1;
    Rdp.KeptUnfold(sqrt, points, epsilon, 0, 3);
    Rdp.KeptUnfold(sqrt, points, epsilon, 0, 2);
    Rdp.KeptUnfold(sqrt, points, epsilon, 2, 3);
    hide Rdp.FarthestBefore, Rdp.KeptBetween;
    var none: seq<nat> := [];
    assert Rdp.KeptBetween(sqrt, points, epsilon, 0, 3) == none + [2] + none;
  }

  lemma SelectThree(points: seq<Point>, indices: seq<nat>)
    requires IsSettled(points) && indices == [0, 2, 3]
    ensures IsKept(Rdp.Select(points, indices))
  {
  }

  lemma SettledPoints(points: seq<Point>)
    requires IsSettled(points)
    ensures |points| == 4 && points[0] == On(50.0) && points[1] == On(50.0) && points[2] == On(75.0)
    ensures points[3] == On(50.0)
  {
    hide On;
  }

  lemma SimplifiedSelects(sqrt: real -> real, points: seq<Point>, epsilon: real)
    ensures Rdp.Simplified(sqrt, points, epsilon) == Rdp.Select(points, Rdp.KeptIndices(sqrt, points, epsilon))
  {
    hide Rdp.Select, Rdp.KeptIndices;
  }

  lemma SettledSimplified(sqrt: real -> real, points: seq<Point>, epsilon: real)
    requires IsSqrt(sqrt) && IsSettled(points) && 0.0 < epsilon < 25.0
    ensures IsKept(Rdp.Simplified(sqrt, points, epsilon))
  {
    hide *;
    SettledPoints(points);
    DeviationFromStart(sqrt, points, 0, 3, 1, 50.0, 50.0);
    DeviationFromStart(sqrt, points, 0, 3, 2, 75.0, 50.0);
    DeviationFromStart(sqrt, points, 0, 2, 1, 50.0, 50.0);
    DropsSecondOfFour(sqrt, points, epsilon);
    SelectThree(points, Rdp.KeptIndices(sqrt, points, epsilon));
    SimplifiedSelects(sqrt, points, epsilon);
  }

  // ----- the way back -----

  lemma OneHop(sqrt: real -> real, points: seq<Point>, hops: nat, from: real, to: real, length: real)
    requires IsSqrt(sqrt) && 0 < hops < |points| && points[hops - 1] == On(from) && points[hops] == On(to)
    requires length == (if from < to then to - from else from - to) && from != to
    ensures var before := Chain(sqrt, points, hops - 1);
            Chain(sqrt, points, hops)
            == before + [Segment(On(from), On(to), EndOf(before), EndOf(before) + length, length)]
    ensures PathLength(sqrt, points, hops) == PathLength(sqrt, points, hops - 1) + length
  {
    DistanceOn(sqrt, from, to);
    hide IsSqrt, Distance, On;
  }

  lemma NoHop(sqrt: real -> real, points: seq<Point>)
    requires points != []
    ensures Chain(sqrt, points, 0) == [] && PathLength(sqrt, points, 0) == 0.0
  {
  }

  /** The two segments of the simplified line: 25 meters out, 25 meters back. */
  ghost predicate AreWays(segments: seq<Segment>) {
    && |segments| == 2
    && segments[0] == Segment(On(50.0), On(75.0), 0.0, 25.0, 25.0)
    && segments[1] == Segment(On(75.0), On(50.0), 25.0, 50.0, 25.0)
  }

  lemma AppendedWays(none: seq<Segment>, one: seq<Segment>, two: seq<Segment>)
    requires none == []
    requires one == none + [Segment(On(50.0), On(75.0), EndOf(none), EndOf(none) + 25.0, 25.0)]
    requires two == one + [Segment(On(75.0), On(50.0), EndOf(one), EndOf(one) + 25.0, 25.0)]
    ensures AreWays(two)
  {
    hide On;
  }

  lemma OpenSegments(sqrt: real -> real, points: seq<Point>)
    requires |points| == 3
    ensures CenterlineSegments(sqrt, points, false) == Chain(sqrt, points, 2)
    ensures TrackLength(sqrt, points, false) == PathLength(sqrt, points, 2)
  {
    hide Chain, PathLength;
  }

  lemma KeptPoints(points: seq<Point>)
    requires IsKept(points)
    ensures |points| == 3 && points[0] == On(50.0) && points[1] == On(75.0) && points[2] == On(50.0)
    ensures points[1] != points[0]
  {
  }

  lemma KeptSegments(sqrt: real -> real, points: seq<Point>)
    requires IsSqrt(sqrt) && IsKept(points)
    ensures AreWays(CenterlineSegments(sqrt, points, false)) && TrackLength(sqrt, points, false) == 50.0
  {
    hide *;
    KeptPoints(points);
    NoHop(sqrt, points);
    OneHop(sqrt, points, 1, 50.0, 75.0, 25.0);
    OneHop(sqrt, points, 2, 75.0, 50.0, 25.0);
    AppendedWays(Chain(sqrt, points, 0), Chain(sqrt, points, 1), Chain(sqrt, points, 2));
    OpenSegments(sqrt, points);
  }

  lemma PassedAt(segments: seq<Segment>, k: nat, t: real, d: real, q: Point)
    requires k < |segments| && OnSegmentAt(segments[k], t, d, q)
    ensures AtArcLength(segments, d, q)
  {
    hide OnSegmentAt;
  }

  /** The point of a segment along the straight at a fraction of its length. */
  lemma PartWay(s: Segment, from: real, to: real, t: real, moved: real, gone: real)
    requires s.start == On(from) && s.end == On(to) && 0.0 <= t <= 1.0
    requires moved == Times(to - from, t) && gone == Times(s.length, t)
    ensures OnSegmentAt(s, t, s.startMeters + gone, On(from + moved))
  {
    TimesUnits(t);
    hide Times;
  }

  lemma Ways(segments: seq<Segment>)
    requires AreWays(segments)
    ensures |segments| == 2 && segments[0].start == On(50.0) && segments[0].end == On(75.0)
    ensures segments[1].start == On(75.0) && segments[1].end == On(50.0)
    ensures segments[0].startMeters == 0.0 && segments[1].startMeters == 25.0
    ensures segments[0].length == segments[1].length == 25.0
  {
    hide On;
  }

  lemma Fractions()
    ensures Times(25.0, 0.96) == 24.0 && Times(25.0, 0.04) == 1.0 && Times(-25.0, 0.04) == -1.0
  {
  }

  lemma RevisitsAt(segments: seq<Segment>, d: real, e: real, q: Point)
    requires AtArcLength(segments, d, q) && AtArcLength(segments, e, q)
    ensures Revisits(segments, d, e)
  {
    hide AtArcLength;
  }

  /** One meter before the turn, and one meter after it. */
  lemma PassedTwice(segments: seq<Segment>)
    requires AreWays(segments)
    ensures Revisits(segments, 24.0, 26.0)
  {
    hide *;
    Ways(segments);
    Fractions();
    PartWay(segments[0], 50.0, 75.0, 0.96, 24.0, 24.0);
    PartWay(segments[1], 75.0, 50.0, 0.04, -1.0, 1.0);
    PassedAt(segments, 0, 0.96, 24.0, On(74.0));
    PassedAt(segments, 1, 0.04, 26.0, On(74.0));
    RevisitsAt(segments, 24.0, 26.0, On(74.0));
  }

  /** Resampling at any positive step succeeds, on a line of 50 meters. */
  lemma KeptResampled(sqrt: real -> real, points: seq<Point>, step: real)
    requires IsSqrt(sqrt) && IsKept(points) && step > 0.0
    ensures var r := Resampled(sqrt, points, step, false); r.Ok? && r.value.1 == 50.0
  {
    KeptPoints(points);
    hide IsSqrt, Resampled, TrackLength, CenterlineSegments, EvenlySpaced, AreWays, IsKept, On;
    KeptSegments(sqrt, points);
    ResampleSucceeds(sqrt, points, step, false);
    ResampledEvenly(sqrt, points, step, false);
    assert points[1] != points[0];
  }

  lemma StepsOfTwo(step: real)
    requires step == 2.0
    ensures Multiple(step, 12) == 24.0 && Multiple(step, 13) == 26.0
  {
  }

  lemma TurnedBackAt(sqrt: real -> real, options: Pipeline.Options, g: Pipeline.Generated)
    requires IsSqrt(sqrt) && IsKept(g.simplified) && !g.closed && g.total == 50.0 && options.resampleStepMeters == 2.0
    ensures Pipeline.RevisitedAt(sqrt, options, g, 12)
  {
    KeptPoints(g.simplified);
    hide IsSqrt, CenterlineSegments, Revisits, Multiple, AreWays, IsKept, On;
    KeptSegments(sqrt, g.simplified);
    PassedTwice(CenterlineSegments(sqrt, g.simplified, false));
    StepsOfTwo(options.resampleStepMeters);
  }

  lemma StagesReject(sqrt: real -> real, cleaned: seq<Point>, options: Pipeline.Options, entry: Entry)
    requires Pipeline.MetadataFault(entry).None?
    requires IsSqrt(sqrt) && options.epsilonMeters == 0.5 && options.resampleStepMeters == 2.0
    requires var r := Smoothing.Smoothed(cleaned, options.smoothingWindow, false); r.Ok? && IsSettled(r.value)
    ensures var r := Pipeline.Stages(sqrt, cleaned, false, options);
            r.Ok? && Pipeline.Checked(entry, r.value) == Err(Pipeline.InvalidCenterLine)
  {
    hide *;
    var smoothed := Smoothing.Smoothed(cleaned, options.smoothingWindow, false);
    var simplified := Rdp.Simplified(sqrt, smoothed.value, options.epsilonMeters);
    SettledSimplified(sqrt, smoothed.value, options.epsilonMeters);
    KeptResampled(sqrt, simplified, options.resampleStepMeters);
    KeptPoints(simplified);
    var resampled := Resampled(sqrt, simplified, options.resampleStepMeters, false);
    var line, total := resampled.value.0, resampled.value.1;
    assert resampled.value == (line, total);
    var g := Pipeline.Generated(cleaned, false, smoothed.value, simplified, line, total);
    Pipeline.StagesRun(sqrt, options, g);
    TurnedBackAt(sqrt, options, g);
    Pipeline.RejectedOnlyForCoincidence(sqrt, options, g, entry);
    Pipeline.RejectedExactly(sqrt, options, g, entry);
  }

  lemma ValidOptions(options: Pipeline.Options)
    requires !Baseline.Blank(options.layoutId)
    requires options.smoothingWindow == 3 && options.epsilonMeters == 0.5 && options.resampleStepMeters == 2.0
    ensures Pipeline.OptionsFault(options) == None
  {
    hide Baseline.Blank;
  }

  lemma ValidFrames(sessionId: string)
    requires !Baseline.Blank(sessionId)
    ensures Baseline.RequestFault(Batch(sessionId, Frames())) == None
  {
    Baseline.RequestValid(Batch(sessionId, Frames()));
    hide Baseline.Blank, Baseline.RequestFault;
  }

  lemma OutcomeOf(sqrt: real -> real, request: Batch, options: Pipeline.Options, tracks: seq<Track>,
                  cleaned: seq<Point>)
    requires Pipeline.OptionsFault(options) == None && Baseline.RequestFault(request) == None
    requires Baseline.FirstEntry(Entries(tracks), options.layoutId).Some?
    requires Baseline.Cleaned(Baseline.Positions(request.frames)) == cleaned && |cleaned| >= 2
    ensures var g := Pipeline.Stages(sqrt, cleaned, Baseline.ReturnsToStart(sqrt, cleaned), options);
            g.Ok? ==> Pipeline.Outcome(sqrt, request, options, tracks)
                      == Pipeline.Checked(Baseline.FirstEntry(Entries(tracks), options.layoutId).value, g.value)
  {
    hide Pipeline.OptionsFault, Pipeline.Stages, Baseline.RequestFault, Baseline.FirstEntry, Baseline.Cleaned;
    hide Baseline.ReturnsToStart, Pipeline.Checked;
  }

  /** With the default window, epsilon and step the batch is rejected, although every stage before validation
      succeeds and the step is far shorter than the line. */
  lemma DefaultsRejectOutAndBack(sqrt: real -> real, sessionId: string, layoutId: string, tracks: seq<Track>)
    requires IsSqrt(sqrt) && !Baseline.Blank(sessionId) && !Baseline.Blank(layoutId)
    requires var entry := Baseline.FirstEntry(Entries(tracks), layoutId);
             entry.Some? && Pipeline.MetadataFault(entry.value).None?
    ensures Pipeline.Outcome(sqrt, Batch(sessionId, Frames()), Pipeline.Options(layoutId, 3, 0.5, 2.0), tracks)
            == Err(Pipeline.InvalidCenterLine)
  {
    var options := Pipeline.Options(layoutId, 3, 0.5, 2.0);
    ValidOptions(options);
    ValidFrames(sessionId);
    hide *;
    FramesCleaned();
    DrivenIsOpen(sqrt);
    DrivenSmoothed();
    StagesReject(sqrt, Driven(), options, Baseline.FirstEntry(Entries(tracks), layoutId).value);
    OutcomeOf(sqrt, Batch(sessionId, Frames()), options, tracks, Driven());
  }
}
