/** Building a centerline out of points and projecting positions onto it. */
module Centerlines {
  import opened Prelude
  import opened Reals
  import opened Geometry
  import opened Circular

  datatype Segment = Segment(start: Point, end: Point, startMeters: real, endMeters: real, length: real)

  datatype Centerline = Centerline(points: seq<Point>, segments: seq<Segment>, totalMeters: real, closed: bool)

  datatype CenterlineError = TooShort | ZeroLength

  datatype Projection = Projection(
    segmentIndex: nat,
    segmentRatio: real,
    point: Point,
    distanceFromStart: real,
    normalizedProgress: real,
    offCenterlineMeters: real)

  // ----- the chain of segments -----

  function EndOf(segments: seq<Segment>): real {
    if segments == [] then 0.0 else segments[|segments| - 1].endMeters
  }

  /** The chain extended by the segment to the next point, which a zero length drops. */
  function Extend(sqrt: real -> real, segments: seq<Segment>, from: Point, to: Point): seq<Segment> {
    var length := Distance(sqrt, from, to);
    if length == 0.0 then segments
    else segments + [Segment(from, to, EndOf(segments), EndOf(segments) + length, length)]
  }

  /** The segments of the first `hops` hops between consecutive points. */
  function Chain(sqrt: real -> real, points: seq<Point>, hops: nat): seq<Segment>
    requires hops < |points|
  {
    if hops == 0 then []
    else Extend(sqrt, Chain(sqrt, points, hops - 1), points[hops - 1], points[hops])
  }

  /** The length of the path through the first `hops` hops. */
  function PathLength(sqrt: real -> real, points: seq<Point>, hops: nat): real
    requires hops < |points|
  {
    if hops == 0 then 0.0
    else PathLength(sqrt, points, hops - 1) + Distance(sqrt, points[hops - 1], points[hops])
  }

  function CenterlineSegments(sqrt: real -> real, points: seq<Point>, closed: bool): seq<Segment>
    requires |points| >= 2
  {
    var n := |points|;
    var open := Chain(sqrt, points, n - 1);
    if closed && points[0] != points[n - 1] then Extend(sqrt, open, points[n - 1], points[0]) else open
  }

  ghost predicate Measured(sqrt: real -> real, s: Segment) {
    s.length > 0.0 && s.length == Distance(sqrt, s.start, s.end) && s.endMeters == s.startMeters + s.length
  }

  ghost predicate Joined(s: Segment, next: Segment) {
    s.end == next.start && s.endMeters == next.startMeters
  }

  /** Segments of positive length that lead from `from` to `to` without a gap, in space and in arc length. */
  ghost predicate IsChain(sqrt: real -> real, segments: seq<Segment>, from: Point, to: Point) {
    && (segments == [] ==> from == to)
    && (segments != [] ==>
          segments[0].start == from && segments[0].startMeters == 0.0 && segments[|segments| - 1].end == to)
    && (forall k :: 0 <= k < |segments| ==> Measured(sqrt, segments[k]))
    && (forall k :: 0 <= k < |segments| - 1 ==> Joined(segments[k], segments[k + 1]))
  }

  lemma ExtendChain(sqrt: real -> real, segments: seq<Segment>, from: Point, via: Point, to: Point)
    requires IsSqrt(sqrt)
    requires IsChain(sqrt, segments, from, via)
    ensures IsChain(sqrt, Extend(sqrt, segments, via, to), from, to)
    ensures EndOf(Extend(sqrt, segments, via, to)) == EndOf(segments) + Distance(sqrt, via, to)
  {
    DistanceFacts(sqrt, via, to);
    hide Distance, IsSqrt;
  }

  /** The chain joins the first point to the last, however many zero-length hops it drops, and its
      arc length is the length of the path. */
  lemma {:induction false} ChainSpec(sqrt: real -> real, points: seq<Point>, hops: nat)
    requires IsSqrt(sqrt)
    requires hops < |points|
    ensures IsChain(sqrt, Chain(sqrt, points, hops), points[0], points[hops])
    ensures EndOf(Chain(sqrt, points, hops)) == PathLength(sqrt, points, hops)
  {
    if hops > 0 {
      ChainSpec(sqrt, points, hops - 1);
      ExtendChain(sqrt, Chain(sqrt, points, hops - 1), points[0], points[hops - 1], points[hops]);
    }
  }

  /** Along a chain the arc lengths grow from 0 to the total, and only the last segment reaches it. */
  lemma {:induction false} ChainMonotone(sqrt: real -> real, segments: seq<Segment>, from: Point, to: Point, k: nat)
    requires IsChain(sqrt, segments, from, to)
    requires k < |segments|
    ensures 0.0 <= segments[k].startMeters < segments[k].endMeters <= EndOf(segments)
    ensures segments[k].endMeters == EndOf(segments) <==> k == |segments| - 1
  {
    hide Distance;
    StartsBelow(sqrt, segments, from, to, k);
    EndsAbove(sqrt, segments, from, to, k);
    assert Measured(sqrt, segments[k]);
  }

  lemma {:induction false} StartsBelow(sqrt: real -> real, segments: seq<Segment>, from: Point, to: Point, k: nat)
    requires IsChain(sqrt, segments, from, to)
    requires k < |segments|
    ensures 0.0 <= segments[k].startMeters
  {
    hide Distance;
    if k > 0 {
      StartsBelow(sqrt, segments, from, to, k - 1);
      assert Measured(sqrt, segments[k - 1]) && Joined(segments[k - 1], segments[k - 1 + 1]);
    }
  }

  lemma {:induction false} EndsAbove(sqrt: real -> real, segments: seq<Segment>, from: Point, to: Point, k: nat)
    requires IsChain(sqrt, segments, from, to)
    requires k < |segments|
    ensures segments[k].endMeters <= EndOf(segments)
    ensures k < |segments| - 1 ==> segments[k].endMeters < EndOf(segments)
    decreases |segments| - k
  {
    hide Distance;
    if k < |segments| - 1 {
      EndsAbove(sqrt, segments, from, to, k + 1);
      assert Measured(sqrt, segments[k + 1]) && Joined(segments[k], segments[k + 1]);
    }
  }

  // ----- NewCenterline -----

  /** What every centerline that the constructor returns satisfies. */
  ghost predicate ValidCenterline(sqrt: real -> real, line: Centerline) {
    && line.segments != []
    && line.totalMeters == EndOf(line.segments) > 0.0
    && |line.points| >= 2
    && IsChain(sqrt, line.segments, line.points[0],
               if line.closed then line.points[0] else line.points[|line.points| - 1])
  }

  ghost predicate AllSame(points: seq<Point>) {
    forall k :: 0 <= k < |points| ==> points[k] == points[0]
  }

  method NewCenterline(sqrt: real -> real, points: seq<Point>, closed: bool)
    returns (r: Result<Centerline, CenterlineError>)
    requires IsSqrt(sqrt)
    ensures r == Err(TooShort) <==> |points| < 2
    ensures r == Err(ZeroLength) <==> |points| >= 2 && AllSame(points)
    ensures r.Ok? ==>
              r.value == Centerline(points, CenterlineSegments(sqrt, points, closed), r.value.totalMeters, closed)
                      && ValidCenterline(sqrt, r.value)
  {
    if |points| < 2 {
      return Err(TooShort);
    }
    var segments, total := JoinPoints(sqrt, points, closed);
    CenterlineSegmentsSpec(sqrt, points, closed);
    hide IsSqrt, Distance, CenterlineSegments;
    if total <= 0.0 || |segments| == 0 {
      return Err(ZeroLength);
    }
    return Ok(Centerline(points, segments, total, closed));
  }

  /** The constructor's loop over consecutive points, and its closing segment. */
  method JoinPoints(sqrt: real -> real, points: seq<Point>, closed: bool) returns (segments: seq<Segment>, total: real)
    requires |points| >= 2
    ensures segments == CenterlineSegments(sqrt, points, closed)
    ensures total == EndOf(segments)
  {
    hide Distance;
    var n := |points|;
    segments, total := [], 0.0;
    for i := 0 to n - 1
      invariant segments == Chain(sqrt, points, i)
      invariant total == EndOf(segments)
    {
      var length := Distance(sqrt, points[i], points[i + 1]);
      if length == 0.0 {
        continue;
      }
      segments := segments + [Segment(points[i], points[i + 1], total, total + length, length)];
      total := total + length;
    }
    if closed && points[0] != points[n - 1] {
      var length := Distance(sqrt, points[n - 1], points[0]);
      if length != 0.0 {
        segments := segments + [Segment(points[n - 1], points[0], total, total + length, length)];
        total := total + length;
      }
    }
  }

  lemma CenterlineSegmentsSpec(sqrt: real -> real, points: seq<Point>, closed: bool)
    requires IsSqrt(sqrt) && |points| >= 2
    ensures var segments := CenterlineSegments(sqrt, points, closed);
            && IsChain(sqrt, segments, points[0], if closed then points[0] else points[|points| - 1])
            && (segments == [] <==> AllSame(points))
            && (segments != [] <==> EndOf(segments) > 0.0)
            && EndOf(segments) == PathLength(sqrt, points, |points| - 1)
                                  + (if closed then Distance(sqrt, points[|points| - 1], points[0]) else 0.0)
  {
    var n := |points|;
    var open := Chain(sqrt, points, n - 1);
    ChainSpec(sqrt, points, n - 1);
    ChainEmpty(sqrt, points, n - 1);
    DistanceFacts(sqrt, points[n - 1], points[0]);
    if closed {
      ExtendChain(sqrt, open, points[0], points[n - 1], points[0]);
    }
    hide Distance, IsSqrt, Chain;
    var segments := CenterlineSegments(sqrt, points, closed);
    if segments != [] {
      ChainMonotone(sqrt, segments, points[0], if closed then points[0] else points[n - 1], 0);
    }
  }

  /** Only a path that never leaves its first point has no segments. */
  lemma {:induction false} ChainEmpty(sqrt: real -> real, points: seq<Point>, hops: nat)
    requires IsSqrt(sqrt) && hops < |points|
    ensures Chain(sqrt, points, hops) == [] <==> AllSame(points[..hops + 1])
  {
    if hops > 0 {
      ChainEmpty(sqrt, points, hops - 1);
      DistanceFacts(sqrt, points[hops - 1], points[hops]);
      hide Distance, IsSqrt;
      var before, now := points[..hops], points[..hops + 1];
      assert before[0] == now[0] && before == now[..hops];
      assert now[hops] == points[hops] && now[hops - 1] == points[hops - 1];
    }
  }

  // ----- Project -----

  function NormalizedProgress(distanceFromStart: real, total: real, closed: bool): real {
    if total <= 0.0 then 0.0
    else if closed then NormalizeDistance(distanceFromStart, total) / total
    else if distanceFromStart <= 0.0 then 0.0
    else if distanceFromStart >= total then 1.0
    else distanceFromStart / total
  }

  /** Where along the line the fraction `ratio` of segment `s` lies. */
  function ArcLength(line: Centerline, s: Segment, ratio: real): real {
    var distance := s.startMeters + Times(s.length, ratio);
    if line.closed then NormalizeDistance(distance, line.totalMeters) else distance
  }

  function SegmentDistance(sqrt: real -> real, p: Point, s: Segment): real {
    Distance(sqrt, p, Projected(p, s.start, s.end))
  }

  /** `best` is the projection onto the first of the nearest segments among the first `n`. */
  ghost predicate IsNearest(sqrt: real -> real, line: Centerline, p: Point, best: Projection, n: nat)
    requires n <= |line.segments|
  {
    && best.segmentIndex < n
    && var s := line.segments[best.segmentIndex];
    && best.segmentRatio == ProjectionRatio(p, s.start, s.end)
    && best.point == Projected(p, s.start, s.end)
    && best.offCenterlineMeters == SegmentDistance(sqrt, p, s)
    && best.distanceFromStart == ArcLength(line, s, best.segmentRatio)
    && best.normalizedProgress == NormalizedProgress(best.distanceFromStart, line.totalMeters, line.closed)
    && (forall k :: 0 <= k < n ==> best.offCenterlineMeters <= SegmentDistance(sqrt, p, line.segments[k]))
    && (forall k :: 0 <= k < best.segmentIndex ==>
          best.offCenterlineMeters < SegmentDistance(sqrt, p, line.segments[k]))
  }

  method Project(sqrt: real -> real, line: Centerline, p: Point) returns (best: Option<Projection>)
    ensures best.None? <==> line.segments == []
    ensures best.Some? ==> IsNearest(sqrt, line, p, best.value, |line.segments|)
  {
    best := None;
    for i := 0 to |line.segments|
      invariant best.None? <==> i == 0
      invariant best.Some? ==> IsNearest(sqrt, line, p, best.value, i)
    {
      var s := line.segments[i];
      var ratio := ProjectionRatio(p, s.start, s.end);
      var projected := Projected(p, s.start, s.end);
      var distance := Distance(sqrt, p, projected);
      assert distance == SegmentDistance(sqrt, p, s);
      hide Distance, Projected, ArcLength, NormalizedProgress, SegmentDistance;
      if best.Some? && distance >= best.value.offCenterlineMeters {
        continue;
      }
      var distanceFromStart := ArcLength(line, s, ratio);
      best := Some(Projection(i, ratio, projected, distanceFromStart,
                              NormalizedProgress(distanceFromStart, line.totalMeters, line.closed), distance));
    }
  }

  /** `q` is the point of the chain at arc length `d`. */
  ghost predicate AtArcLength(segments: seq<Segment>, d: real, q: Point) {
    exists k, t: real :: 0 <= k < |segments| && OnSegmentAt(segments[k], t, d, q)
  }

  ghost predicate OnSegmentAt(s: Segment, t: real, d: real, q: Point) {
    0.0 <= t <= 1.0 && d == s.startMeters + Times(s.length, t) && q == Lerp(s.start, s.end, t)
  }

  lemma {:induction false} ChainGrows(sqrt: real -> real, points: seq<Point>, k: nat, hops: nat)
    requires k <= hops < |points|
    ensures Chain(sqrt, points, k) <= Chain(sqrt, points, hops)
    decreases hops
  {
    hide Distance;
    if k < hops {
      ChainGrows(sqrt, points, k, hops - 1);
    }
  }

  lemma ChainEndAt(sqrt: real -> real, points: seq<Point>, k: nat)
    requires IsSqrt(sqrt) && k < |points| && Chain(sqrt, points, k) != []
    ensures AtArcLength(Chain(sqrt, points, k), PathLength(sqrt, points, k), points[k])
  {
    var chain := Chain(sqrt, points, k);
    ChainSpec(sqrt, points, k);
    hide Chain, Distance, IsSqrt;
    var last := chain[|chain| - 1];
    assert Measured(sqrt, last);
    LerpEnds(last.start, last.end);
    TimesUnits(last.length);
    hide Times, Lerp;
    assert OnSegmentAt(last, 1.0, PathLength(sqrt, points, k), points[k]);
  }

  lemma ChainStartAt(sqrt: real -> real, segments: seq<Segment>, from: Point, to: Point)
    requires IsChain(sqrt, segments, from, to) && segments != []
    ensures AtArcLength(segments, 0.0, from)
  {
    LerpEnds(segments[0].start, segments[0].end);
    TimesUnits(segments[0].length);
    hide Times, Lerp, Distance;
    assert OnSegmentAt(segments[0], 0.0, 0.0, from);
  }

  /** The chain passes every point of the path, at the length of the path up to it. */
  lemma PassesPoints(sqrt: real -> real, points: seq<Point>, closed: bool, k: nat)
    requires IsSqrt(sqrt) && |points| >= 2 && k < |points| && CenterlineSegments(sqrt, points, closed) != []
    ensures AtArcLength(CenterlineSegments(sqrt, points, closed), PathLength(sqrt, points, k), points[k])
  {
    var segments := CenterlineSegments(sqrt, points, closed);
    CenterlineSegmentsSpec(sqrt, points, closed);
    ChainGrows(sqrt, points, k, |points| - 1);
    ChainSpec(sqrt, points, k);
    ChainEmpty(sqrt, points, k);
    var chain := Chain(sqrt, points, k);
    assert chain <= segments by { hide Chain, Distance; }
    hide CenterlineSegments, Chain, Distance, IsSqrt;
    if chain == [] {
      assert points[..k + 1][k] == points[k] && points[..k + 1][0] == points[0];
      ChainStartAt(sqrt, segments, points[0], if closed then points[0] else points[|points| - 1]);
    } else {
      ChainEndAt(sqrt, points, k);
      var j, t: real :| 0 <= j < |chain| && OnSegmentAt(chain[j], t, PathLength(sqrt, points, k), points[k]);
      assert segments[j] == chain[j];
    }
  }

  lemma {:induction false} LaterSegmentStarts(sqrt: real -> real, segments: seq<Segment>, from: Point, to: Point,
                                              j: nat, k: nat)
    requires IsChain(sqrt, segments, from, to) && j < k < |segments|
    ensures segments[j].endMeters <= segments[k].startMeters
    ensures segments[j].endMeters == segments[k].startMeters ==> segments[j].end == segments[k].start
    decreases k
  {
    hide Distance;
    assert Joined(segments[k - 1], segments[k - 1 + 1]);
    if j < k - 1 {
      assert Measured(sqrt, segments[k - 1]);
      LaterSegmentStarts(sqrt, segments, from, to, j, k - 1);
    }
  }

  /** Where one segment has ended and a later one has not begun to lead away, there is only their common point. */
  lemma BetweenSegments(a: Segment, b: Segment, t: real, u: real, d: real, p: Point, q: Point)
    requires a.length > 0.0 && b.length > 0.0 && a.endMeters == a.startMeters + a.length
    requires OnSegmentAt(a, t, d, p) && OnSegmentAt(b, u, d, q)
    requires a.endMeters <= b.startMeters && (a.endMeters == b.startMeters ==> a.end == b.start)
    ensures p == q
  {
    TimesUnits(a.length);
    TimesUnits(b.length);
    TimesOrder(a.length, t, 1.0);
    TimesOrder(b.length, 0.0, u);
    LerpEnds(a.start, a.end);
    LerpEnds(b.start, b.end);
    hide Times, Lerp;
    EqualFactors(a.length, t, 1.0);
    EqualFactors(b.length, u, 0.0);
  }

  /** A chain has one point at each arc length. */
  lemma AtArcLengthUnique(sqrt: real -> real, segments: seq<Segment>, from: Point, to: Point,
                          d: real, p: Point, q: Point)
    requires IsChain(sqrt, segments, from, to)
    requires AtArcLength(segments, d, p) && AtArcLength(segments, d, q)
    ensures p == q
  {
    var j, t: real :| 0 <= j < |segments| && OnSegmentAt(segments[j], t, d, p);
    var k, u: real :| 0 <= k < |segments| && OnSegmentAt(segments[k], u, d, q);
    assert Measured(sqrt, segments[j]) && Measured(sqrt, segments[k]);
    hide Distance, Lerp, Times;
    if j < k {
      LaterSegmentStarts(sqrt, segments, from, to, j, k);
      BetweenSegments(segments[j], segments[k], t, u, d, p, q);
    } else if k < j {
      LaterSegmentStarts(sqrt, segments, from, to, k, j);
      BetweenSegments(segments[k], segments[j], u, t, d, q, p);
    } else {
      EqualFactors(segments[j].length, t, u);
    }
  }

  /** The chain passes one and the same point at the two arc lengths. */
  ghost predicate Revisits(segments: seq<Segment>, d: real, e: real) {
    exists q :: AtArcLength(segments, d, q) && AtArcLength(segments, e, q)
  }

  /** Nothing on the line is nearer to `p` than the projection. */
  lemma ProjectionIsNearest(sqrt: real -> real, line: Centerline, p: Point, best: Projection, k: nat, t: real)
    requires IsSqrt(sqrt)
    requires IsNearest(sqrt, line, p, best, |line.segments|)
    requires k < |line.segments| && 0.0 <= t <= 1.0
    ensures best.offCenterlineMeters == Distance(sqrt, p, best.point)
    ensures best.offCenterlineMeters <= Distance(sqrt, p, Lerp(line.segments[k].start, line.segments[k].end, t))
  {
    ProjectionOptimal(sqrt, p, line.segments[k].start, line.segments[k].end, t);
    hide Distance, Projected, Lerp, ArcLength, NormalizedProgress, IsSqrt;
    assert best.offCenterlineMeters <= SegmentDistance(sqrt, p, line.segments[k]);
  }

  /** The projection is the point of the line at its reported arc length, which lies in [0,total] on an
      open line and in [0,total) on a closed one; its progress is that length over the total. */
  lemma ProjectionIsAtArcLength(sqrt: real -> real, line: Centerline, p: Point, best: Projection)
    requires ValidCenterline(sqrt, line)
    requires IsNearest(sqrt, line, p, best, |line.segments|)
    ensures AtArcLength(line.segments, best.distanceFromStart, best.point)
    ensures 0.0 <= best.distanceFromStart <= line.totalMeters
    ensures line.closed ==> best.distanceFromStart < line.totalMeters
    ensures best.normalizedProgress == best.distanceFromStart / line.totalMeters
  {
    var k, t := best.segmentIndex, best.segmentRatio;
    var s := line.segments[k];
    var to := if line.closed then line.points[0] else line.points[|line.points| - 1];
    ChainMonotone(sqrt, line.segments, line.points[0], to, k);
    ChainMonotone(sqrt, line.segments, line.points[0], to, 0);
    assert Measured(sqrt, s);
    var raw := s.startMeters + Times(s.length, t);
    assert OnSegmentAt(s, t, raw, best.point);
    RawRange(s, t);
    NormalizedAtEnds(line.totalMeters);
    if line.closed {
      if raw < line.totalMeters {
        NormalizeFixed(raw, line.totalMeters);
      } else {
        LerpEnds(s.start, s.end);
        var first := line.segments[0];
        LerpEnds(first.start, first.end);
        TimesUnits(first.length);
        assert OnSegmentAt(first, 0.0, 0.0, first.start);
      }
      NormalizeFixed(best.distanceFromStart, line.totalMeters);
    }
  }

  lemma RawRange(s: Segment, t: real)
    requires s.length > 0.0 && s.endMeters == s.startMeters + s.length && 0.0 <= t <= 1.0
    ensures s.startMeters <= s.startMeters + Times(s.length, t) <= s.endMeters
    ensures s.startMeters + Times(s.length, t) == s.endMeters ==> t == 1.0
  {
    TimesUnits(s.length);
    TimesOrder(s.length, 0.0, t);
    TimesOrder(s.length, t, 1.0);
    if t < 1.0 {
      TimesStrict(s.length, t, 1.0);
    }
    hide Times;
  }

  lemma NormalizedAtEnds(total: real)
    requires total > 0.0
    ensures NormalizeDistance(total, total) == 0.0
    ensures 0.0 / total == 0.0 && total / total == 1.0
  {
    NormalizeSpec(total, total);
    TurnsAdd(total, 0, 1);
    assert total == 0.0 + Turns(total, 1);
    NormalizePeriodic(total, 0.0, total);
    NormalizeFixed(0.0, total);
    var zero := Quotient(0.0, total);
    var one := Quotient(total, total);
    TimesSign(total, zero);
  }
}
