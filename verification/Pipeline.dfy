/** From the frames of one lap to a catalog centerline: cleaning, smoothing, simplification, resampling and
    validation in a row. */
module Pipeline {
  import opened Prelude
  import opened Reals
  import opened Geometry
  import opened Centerlines
  import opened Telemetry
  import opened Catalog
  import opened Resampling
  import Smoothing
  import Rdp
  import Baseline

  datatype Options = Options(layoutId: string, smoothingWindow: int, epsilonMeters: real, resampleStepMeters: real)

  datatype BuildError =
    | BlankLayoutID
    | InvalidSmoothingWindow
    | InvalidEpsilon
    | InvalidResampleStep
    | InvalidRequest(requestFault: Baseline.BaselineError)
    | LayoutNotFound
    | TooFewPoints
    | InvalidGeometry(reason: ResampleError)
    | InvalidMetadata(fault: CatalogError)
    | InvalidCenterLine

  /** What the stages make of the telemetry; `line` and `total` go into the catalog. */
  datatype Generated = Generated(cleaned: seq<Point>, closed: bool, smoothed: seq<Point>, simplified: seq<Point>,
                                 line: seq<SampledPoint>, total: real)

  function OptionsFault(options: Options): Option<BuildError> {
    if Baseline.Blank(options.layoutId) then Some(BlankLayoutID)
    else if options.smoothingWindow < 1 || Smoothing.TruncatedRemainder(options.smoothingWindow, 2) == 0 then
      Some(InvalidSmoothingWindow)
    else if options.epsilonMeters <= 0.0 then Some(InvalidEpsilon)
    else if options.resampleStepMeters <= 0.0 then Some(InvalidResampleStep)
    else None
  }

  /** The stages in their order, on the cleaned points of a lap that is closed or not. */
  ghost function Stages(sqrt: real -> real, cleaned: seq<Point>, closed: bool, options: Options)
    : Result<Generated, BuildError>
  {
    var smoothed := Smoothing.Smoothed(cleaned, options.smoothingWindow, closed);
    if smoothed.Err? then
      Err(match smoothed.error
          case InvalidSmoothingWindow => InvalidSmoothingWindow
          case InsufficientUsablePoints => TooFewPoints)
    else
      var simplified := Rdp.Simplified(sqrt, smoothed.value, options.epsilonMeters);
      if |simplified| < 2 then Err(TooFewPoints)
      else
        var resampled := Resampled(sqrt, simplified, options.resampleStepMeters, closed);
        if resampled.Err? then Err(InvalidGeometry(resampled.error))
        else
          var (line, total) := resampled.value;
          Ok(Generated(cleaned, closed, smoothed.value, simplified, line, total))
  }

  /** What is wrong with the names and sources that the generated catalog takes from the seed. A complete source is
      added to both lists, and the length is never zero, so neither adds a fault. */
  function MetadataFault(entry: Entry): Option<CatalogError> {
    if entry.trackId == "" then Some(MissingTrackID)
    else if entry.trackName == "" then Some(MissingTrackName)
    else if SourcesFault(entry.trackSources, 0).Some? then SourcesFault(entry.trackSources, 0)
    else if entry.layout.id == "" then Some(MissingLayoutID)
    else if entry.layout.name == "" then Some(MissingLayoutName)
    else if entry.layout.id == entry.trackId then Some(DuplicateID)
    else SourcesFault(entry.layout.sources, 0)
  }

  /** The generated catalog's metadata has no fault exactly if the ids and names are there, the two ids differ and
      every source is complete. */
  lemma MetadataValid(entry: Entry)
    ensures MetadataFault(entry).None?
            <==> && entry.trackId != "" && entry.trackName != "" && entry.layout.id != "" && entry.layout.name != ""
                 && entry.trackId != entry.layout.id
                 && Complete(entry.trackSources) && Complete(entry.layout.sources)
  {
    SourcesComplete(entry.trackSources, 0);
    SourcesComplete(entry.layout.sources, 0);
    hide SourcesFault, CompleteFrom;
  }

  /** Options have no fault exactly if they name a layout, with an odd window and a positive epsilon and step. */
  lemma OptionsValid(options: Options)
    ensures OptionsFault(options).None?
            <==> && !Baseline.Blank(options.layoutId)
                 && options.smoothingWindow >= 1 && options.smoothingWindow % 2 == 1
                 && options.epsilonMeters > 0.0 && options.resampleStepMeters > 0.0
  {
  }

  /** What the catalog demands of a centerline for a layout of the given length. */
  ghost predicate ValidLine(line: seq<SampledPoint>, length: real) {
    |line| != 1 && Ordered(line, length) && forall i: nat :: i + 1 < |line| ==> !Coincide(line, i)
  }

  /** The generated catalog's validation: the metadata first, the centerline last. */
  ghost function Checked(entry: Entry, g: Generated): Result<Generated, BuildError> {
    if MetadataFault(entry).Some? then Err(InvalidMetadata(MetadataFault(entry).value))
    else if !ValidLine(g.line, g.total) then Err(InvalidCenterLine)
    else Ok(g)
  }

  ghost function Outcome(sqrt: real -> real, request: Batch, options: Options, tracks: seq<Track>)
    : Result<Generated, BuildError>
  {
    if OptionsFault(options).Some? then Err(OptionsFault(options).value)
    else if Baseline.RequestFault(request).Some? then Err(InvalidRequest(Baseline.RequestFault(request).value))
    else if Baseline.FirstEntry(Entries(tracks), options.layoutId).None? then Err(LayoutNotFound)
    else
      var cleaned := Baseline.Cleaned(Baseline.Positions(request.frames));
      if |cleaned| < 2 then Err(TooFewPoints)
      else
        var g := Stages(sqrt, cleaned, Baseline.ReturnsToStart(sqrt, cleaned), options);
        if g.Err? then g else Checked(Baseline.FirstEntry(Entries(tracks), options.layoutId).value, g.value)
  }

  method BuildLine(sqrt: real -> real, cleaned: seq<Point>, options: Options) returns (r: Result<Generated, BuildError>)
    requires IsSqrt(sqrt)
    ensures r == Stages(sqrt, cleaned, Baseline.ReturnsToStart(sqrt, cleaned), options)
  {
    hide IsSqrt, Smoothing.Smoothed, Rdp.Simplified, Resampled, Baseline.ReturnsToStart;
    var closed := Baseline.IsClosedLoop(sqrt, cleaned);
    var smoothed := Smoothing.SmoothPoints(cleaned, options.smoothingWindow, closed);
    if smoothed.Err? {
      return Err(match smoothed.error
                 case InvalidSmoothingWindow => InvalidSmoothingWindow
                 case InsufficientUsablePoints => TooFewPoints);
    }
    var simplified := Rdp.RdpSimplify(sqrt, smoothed.value, options.epsilonMeters);
    if |simplified| < 2 {
      return Err(TooFewPoints);
    }
    var resampled := ResamplePolyline(sqrt, simplified, options.resampleStepMeters, closed);
    if resampled.Err? {
      return Err(InvalidGeometry(resampled.error));
    }
    var line, total := resampled.value.0, resampled.value.1;
    return Ok(Generated(cleaned, closed, smoothed.value, simplified, line, total));
  }

  method ValidateGenerated(sqrt: real -> real, entry: Entry, g: Generated) returns (r: Result<Generated, BuildError>)
    requires IsSqrt(sqrt)
    ensures r == Checked(entry, g)
  {
    hide IsSqrt, Ordered;
    var fault := ValidateMetadata(entry);
    if fault.Some? {
      return Err(InvalidMetadata(fault.value));
    }
    var valid := ValidateCenterLine(sqrt, g.line, g.total);
    if !valid {
      return Err(InvalidCenterLine);
    }
    return Ok(g);
  }

  method ValidateMetadata(entry: Entry) returns (fault: Option<CatalogError>)
    ensures fault == MetadataFault(entry)
  {
    var registry := new IdRegistry();
    if entry.trackId == "" {
      return Some(MissingTrackID);
    }
    if entry.trackName == "" {
      return Some(MissingTrackName);
    }
    fault := registry.Remember(entry.trackId);
    if fault.Some? {
      return;
    }
    fault := ValidateSources(entry.trackSources);
    if fault.Some? {
      return;
    }
    if entry.layout.id == "" {
      return Some(MissingLayoutID);
    }
    if entry.layout.name == "" {
      return Some(MissingLayoutName);
    }
    fault := registry.Remember(entry.layout.id);
    if fault.Some? {
      return;
    }
    fault := ValidateSources(entry.layout.sources);
  }

  method Build(sqrt: real -> real, request: Batch, options: Options, tracks: seq<Track>)
    returns (r: Result<Generated, BuildError>)
    requires IsSqrt(sqrt)
    ensures r == Outcome(sqrt, request, options, tracks)
  {
    hide IsSqrt, OptionsFault, Baseline.RequestFault, Baseline.FirstEntry, Stages, Checked;
    hide Baseline.ReturnsToStart, Baseline.Cleaned;
    var invalid := OptionsFault(options);
    if invalid.Some? {
      return Err(invalid.value);
    }
    var fault := Baseline.ValidateBuildRequest(request);
    if fault.Some? {
      return Err(InvalidRequest(fault.value));
    }
    var found := Baseline.FindSeedLayout(tracks, options.layoutId);
    if found.None? {
      return Err(LayoutNotFound);
    }
    var cleaned := Baseline.CleanupTelemetryPoints(request.frames);
    if |cleaned| < 2 {
      return Err(TooFewPoints);
    }
    r := BuildLine(sqrt, cleaned, options);
    if r.Ok? {
      r := ValidateGenerated(sqrt, found.value, r.value);
    }
  }

  // ----- what a generated line promises -----

  /** The stages before validation, as they were run. */
  ghost predicate Ran(sqrt: real -> real, options: Options, g: Generated) {
    && Smoothing.Smoothed(g.cleaned, options.smoothingWindow, g.closed) == Ok(g.smoothed)
    && g.simplified == Rdp.Simplified(sqrt, g.smoothed, options.epsilonMeters) && |g.simplified| >= 2
    && Resampled(sqrt, g.simplified, options.resampleStepMeters, g.closed) == Ok((g.line, g.total))
  }

  lemma StagesRun(sqrt: real -> real, options: Options, g: Generated)
    requires Smoothing.Smoothed(g.cleaned, options.smoothingWindow, g.closed) == Ok(g.smoothed)
    requires g.simplified == Rdp.Simplified(sqrt, g.smoothed, options.epsilonMeters) && |g.simplified| >= 2
    requires Resampled(sqrt, g.simplified, options.resampleStepMeters, g.closed) == Ok((g.line, g.total))
    ensures Ran(sqrt, options, g)
  {
  }

  lemma StagesRan(sqrt: real -> real, cleaned: seq<Point>, closed: bool, options: Options)
    ensures var r := Stages(sqrt, cleaned, closed, options);
            r.Ok? ==> Ran(sqrt, options, r.value) && r.value.cleaned == cleaned && r.value.closed == closed
  {
    hide Smoothing.Smoothed, Rdp.Simplified, Resampled;
    var r := Stages(sqrt, cleaned, closed, options);
    if r.Ok? {
      var resampled := Resampled(sqrt, r.value.simplified, options.resampleStepMeters, closed);
      assert resampled.value == (r.value.line, r.value.total);
    }
  }

  /** A successful build ran all stages on the cleaned positions of the batch. */
  lemma BuildRan(sqrt: real -> real, request: Batch, options: Options, tracks: seq<Track>)
    ensures var r := Outcome(sqrt, request, options, tracks);
            r.Ok? ==>
              && Ran(sqrt, options, r.value) && options.epsilonMeters > 0.0 && options.resampleStepMeters > 0.0
              && r.value.cleaned == Baseline.Cleaned(Baseline.Positions(request.frames))
              && (r.value.closed <==> Baseline.ReturnsToStart(sqrt, r.value.cleaned))
  {
    var cleaned := Baseline.Cleaned(Baseline.Positions(request.frames));
    StagesRan(sqrt, cleaned, Baseline.ReturnsToStart(sqrt, cleaned), options);
    hide Stages, Ran, Baseline.RequestFault, Baseline.FirstEntry, Baseline.ReturnsToStart, Baseline.Cleaned;
  }

  /** Once the stages have run, a build fails exactly for the seed's metadata or because two consecutive samples
      coincide: the resampled distances are always in order. */
  lemma RejectedOnlyForCoincidence(sqrt: real -> real, options: Options, g: Generated, entry: Entry)
    requires IsSqrt(sqrt) && Ran(sqrt, options, g)
    ensures Stages(sqrt, g.cleaned, g.closed, options) == Ok(g)
    ensures Checked(entry, g)
            == if MetadataFault(entry).Some? then Err(InvalidMetadata(MetadataFault(entry).value))
               else if exists i: nat :: i + 1 < |g.line| && Coincide(g.line, i) then Err(InvalidCenterLine)
               else Ok(g)
  {
    hide Smoothing.Smoothed, Rdp.Simplified, Resampled, IsSqrt, Ordered, MetadataFault;
    ResampledLineIsOrdered(sqrt, g.simplified, options.resampleStepMeters, g.closed);
  }

  /** The simplified polyline passes one point at the distances of the `k`-th sample and of the next. */
  ghost predicate RevisitedAt(sqrt: real -> real, options: Options, g: Generated, k: nat)
    requires |g.simplified| >= 2
  {
    var step := options.resampleStepMeters;
    && HasNext(g.total, step, g.closed, k)
    && Revisits(CenterlineSegments(sqrt, g.simplified, g.closed), Multiple(step, k),
                Min(Multiple(step, k + 1), g.total))
  }

  /** The cause, on the simplified polyline: a line is rejected exactly if the polyline passes one point at two
      consecutive multiples of the step, or at the last of them and its open end. */
  lemma RejectedExactly(sqrt: real -> real, options: Options, g: Generated, entry: Entry)
    requires IsSqrt(sqrt) && Ran(sqrt, options, g) && MetadataFault(entry).None?
    ensures Checked(entry, g) == Err(InvalidCenterLine) <==> exists k: nat :: RevisitedAt(sqrt, options, g, k)
  {
    RejectedOnlyForCoincidence(sqrt, options, g, entry);
    hide Smoothing.Smoothed, Rdp.Simplified, Resampled, IsSqrt, Stages, Checked, MetadataFault;
    hide HasNext, Revisits, CenterlineSegments;
    forall k: nat
      ensures RevisitedAt(sqrt, options, g, k) <==> k + 1 < |g.line| && Coincide(g.line, k)
    {
      ConsecutiveDistances(sqrt, g.simplified, options.resampleStepMeters, g.closed, k);
      if k + 1 < |g.line| {
        CoincideExactly(sqrt, g.simplified, options.resampleStepMeters, g.closed, k);
      }
    }
  }

  /** The line of a successful build lies on the simplified polyline at its own distances, and every smoothed
      point is within epsilon of that polyline. */
  lemma GeneratedLineFollows(sqrt: real -> real, options: Options, g: Generated, k: nat, i: nat)
    requires IsSqrt(sqrt) && Ran(sqrt, options, g) && k < |g.line| && i < |g.smoothed|
    ensures AtArcLength(CenterlineSegments(sqrt, g.simplified, g.closed), g.line[k].accumulated, g.line[k].point)
    ensures Rdp.NearPolyline(sqrt, g.smoothed[i], g.simplified, options.epsilonMeters)
    ensures g.total == TrackLength(sqrt, g.simplified, g.closed)
  {
    hide Smoothing.Smoothed, Rdp.Simplified, Resampled, IsSqrt, AtArcLength, Rdp.NearPolyline, TrackLength;
    ResampledOnLine(sqrt, g.simplified, options.resampleStepMeters, g.closed, k);
    ResampledEvenly(sqrt, g.simplified, options.resampleStepMeters, g.closed);
    Rdp.EveryPointNearSimplified(sqrt, g.smoothed, options.epsilonMeters, i);
  }

  // ----- the bounding box -----

  /** The reported coordinate of a frame. */
  ghost function CoordinateOf(frame: Frame, axis: Smoothing.Axis): real {
    match axis
    case X => frame.positionX
    case Y => frame.positionY
    case Z => frame.positionZ
  }

  ghost predicate InBox(points: seq<Point>, axis: Smoothing.Axis, low: real, high: real) {
    forall p :: p in points ==> low <= Smoothing.At(p, axis) <= high
  }

  lemma {:induction false} CleanedInBox(points: seq<Point>, axis: Smoothing.Axis, low: real, high: real)
    requires InBox(points, axis, low, high)
    ensures InBox(Baseline.Cleaned(points), axis, low, high)
  {
    if points != [] {
      var n := |points| - 1;
      assert forall p :: p in points[..n] ==> p in points;
      CleanedInBox(points[..n], axis, low, high);
      assert points[n] in points;
    }
  }

  lemma SmoothedInBox(g: Generated, window: int, axis: Smoothing.Axis, low: real, high: real)
    requires Smoothing.Smoothed(g.cleaned, window, g.closed) == Ok(g.smoothed)
    requires InBox(g.cleaned, axis, low, high)
    ensures InBox(g.smoothed, axis, low, high)
  {
    assert forall j :: 0 <= j < |g.cleaned| ==> g.cleaned[j] in g.cleaned;
    hide Smoothing.Smoothed;
    forall i | 0 <= i < |g.smoothed|
      ensures low <= Smoothing.At(g.smoothed[i], axis) <= high
    {
      SameLength(g, window);
      Smoothing.SmoothingStaysInBox(g.cleaned, window, g.closed, axis, low, high, i);
    }
  }

  lemma SameLength(g: Generated, window: int)
    requires Smoothing.Smoothed(g.cleaned, window, g.closed) == Ok(g.smoothed)
    ensures |g.smoothed| == |g.cleaned|
  {
  }

  lemma {:induction false} SegmentsOfPoints(sqrt: real -> real, points: seq<Point>, hops: nat)
    requires hops < |points|
    ensures forall s :: s in Chain(sqrt, points, hops) ==> s.start in points && s.end in points
  {
    hide Distance;
    if hops > 0 {
      SegmentsOfPoints(sqrt, points, hops - 1);
    }
  }

  lemma BetweenInBox(low: real, high: real, a: real, b: real, t: real)
    requires 0.0 <= t <= 1.0 && low <= a <= high && low <= b <= high
    ensures low <= a + Times(b - a, t) <= high
  {
    TimesUnits(b - a);
    TimesUnits(t);
    TimesCommutes(b - a, t);
    TimesSum(t, b, a);
    TimesOrder(t, low - a, b - a);
    TimesOrder(t, b - a, high - a);
    TimesCommutes(t, low - a);
    TimesCommutes(t, high - a);
    TimesSign(a - low, 1.0 - t);
    TimesSign(high - a, 1.0 - t);
    TimesSum(a - low, 1.0, t);
    TimesSum(high - a, 1.0, t);
    TimesUnits(a - low);
    TimesUnits(high - a);
    TimesNegated(a - low, t);
    hide Times;
  }

  lemma LerpInBox(a: Point, b: Point, t: real, axis: Smoothing.Axis, low: real, high: real)
    requires 0.0 <= t <= 1.0 && low <= Smoothing.At(a, axis) <= high && low <= Smoothing.At(b, axis) <= high
    ensures low <= Smoothing.At(Lerp(a, b, t), axis) <= high
  {
    BetweenInBox(low, high, Smoothing.At(a, axis), Smoothing.At(b, axis), t);
    hide Times;
  }

  lemma PositionsInBox(frames: seq<Frame>, axis: Smoothing.Axis, low: real, high: real)
    requires forall f :: f in frames ==> low <= CoordinateOf(f, axis) <= high
    ensures InBox(Baseline.Positions(frames), axis, low, high)
  {
    assert forall i :: 0 <= i < |frames| ==> frames[i] in frames;
  }

  lemma OnChainInBox(segments: seq<Segment>, points: seq<Point>, d: real, q: Point, axis: Smoothing.Axis,
                     low: real, high: real)
    requires AtArcLength(segments, d, q) && InBox(points, axis, low, high)
    requires forall s :: s in segments ==> s.start in points && s.end in points
    ensures low <= Smoothing.At(q, axis) <= high
  {
    var j: nat, t: real :| 0 <= j < |segments| && OnSegmentAt(segments[j], t, d, q);
    assert segments[j] in segments;
    LerpInBox(segments[j].start, segments[j].end, t, axis, low, high);
    hide Smoothing.At;
  }

  /** No stage leaves the bounding box of the driven positions, along any axis. */
  lemma GeneratedLineStaysInBox(sqrt: real -> real, frames: seq<Frame>, options: Options, g: Generated,
                                axis: Smoothing.Axis, low: real, high: real, k: nat)
    requires IsSqrt(sqrt) && Ran(sqrt, options, g) && g.cleaned == Baseline.Cleaned(Baseline.Positions(frames))
    requires forall f :: f in frames ==> low <= CoordinateOf(f, axis) <= high
    requires k < |g.line|
    ensures low <= Smoothing.At(g.line[k].point, axis) <= high
  {
    PositionsInBox(frames, axis, low, high);
    CleanedInBox(Baseline.Positions(frames), axis, low, high);
    SmoothedInBox(g, options.smoothingWindow, axis, low, high);
    SimplifiedOfPoints(sqrt, g.smoothed, options.epsilonMeters);
    SegmentsInPoints(sqrt, g.simplified, g.closed);
    hide CenterlineSegments, Rdp.Simplified, Smoothing.At, Smoothing.Smoothed, CoordinateOf;
    ResampledOnLine(sqrt, g.simplified, options.resampleStepMeters, g.closed, k);
    hide Resampled, IsSqrt, AtArcLength;
    OnChainInBox(CenterlineSegments(sqrt, g.simplified, g.closed), g.simplified, g.line[k].accumulated, g.line[k].point,
                 axis, low, high);
  }

  lemma SegmentsInPoints(sqrt: real -> real, points: seq<Point>, closed: bool)
    requires |points| >= 2
    ensures forall s :: s in CenterlineSegments(sqrt, points, closed) ==> s.start in points && s.end in points
  {
    SegmentsOfPoints(sqrt, points, |points| - 1);
    hide Distance, Chain;
  }

  lemma SimplifiedOfPoints(sqrt: real -> real, points: seq<Point>, epsilon: real)
    ensures forall p :: p in Rdp.Simplified(sqrt, points, epsilon) ==> p in points
  {
    hide Rdp.KeptIndices;
  }
}
