/** Recursive Ramer-Douglas-Peucker simplification over a shared `keep` array. */
module Rdp {
  import opened Geometry

  /** The distance from point `i` to the segment that joins points `s` and `e`. */
  function Deviation(sqrt: real -> real, points: seq<Point>, s: nat, e: nat, i: nat): real
    requires s < |points| && e < |points| && i < |points|
  {
    Distance(sqrt, points[i], Projected(points[i], points[s], points[e]))
  }

  /** `m` is the first of the points strictly between `s` and `end` that is farthest from the segment s-e. */
  ghost predicate IsFirstFarthest(sqrt: real -> real, points: seq<Point>, s: nat, e: nat, end: nat, m: nat) {
    && s < m < end <= e < |points|
    && (forall i :: s < i < end ==> Deviation(sqrt, points, s, e, i) <= Deviation(sqrt, points, s, e, m))
    && (forall i :: s < i < m ==> Deviation(sqrt, points, s, e, i) < Deviation(sqrt, points, s, e, m))
  }

  function FarthestBefore(sqrt: real -> real, points: seq<Point>, s: nat, e: nat, end: nat): (m: nat)
    requires s + 1 < end <= e < |points|
    ensures s < m < end
    ensures IsFirstFarthest(sqrt, points, s, e, end, m)
  {
    if end == s + 2 then s + 1
    else
      var m := FarthestBefore(sqrt, points, s, e, end - 1);
      if Deviation(sqrt, points, s, e, end - 1) > Deviation(sqrt, points, s, e, m) then end - 1 else m
  }

  ghost predicate Increasing(indices: seq<nat>) {
    forall j, k :: 0 <= j < k < |indices| ==> indices[j] < indices[k]
  }

  ghost predicate Inside(indices: seq<nat>, s: nat, e: nat) {
    forall k :: 0 <= k < |indices| ==> s < indices[k] < e
  }

  /** The indices kept strictly between `s` and `e`, in increasing order. */
  function KeptBetween(sqrt: real -> real, points: seq<Point>, epsilon: real, s: nat, e: nat): (kept: seq<nat>)
    requires s < e < |points|
    ensures Inside(kept, s, e)
    ensures Increasing(kept)
    decreases e - s
  {
    if e - s < 2 then []
    else
      var m := FarthestBefore(sqrt, points, s, e, e);
      if Deviation(sqrt, points, s, e, m) > epsilon then
        KeptBetween(sqrt, points, epsilon, s, m) + [m] + KeptBetween(sqrt, points, epsilon, m, e)
      else []
  }

  /** All the indices strictly between `s` and `e`. */
  function Between(s: nat, e: nat): (r: seq<nat>)
    requires s < e
    ensures |r| == e - s - 1 && forall k :: 0 <= k < |r| ==> r[k] == s + 1 + k
  {
    seq(e - s - 1, k => s + 1 + k)
  }

  lemma JoinBetween(s: nat, m: nat, e: nat)
    requires s < m < e
    ensures Between(s, m) + [m] + Between(m, e) == Between(s, e)
  {
  }

  /** `KeptBetween` together with the two ends. */
  function KeptSpan(sqrt: real -> real, points: seq<Point>, epsilon: real, s: nat, e: nat): (kept: seq<nat>)
    requires s < e < |points|
    ensures |kept| >= 2 && kept[0] == s && kept[|kept| - 1] == e
    ensures forall k :: 0 <= k < |kept| ==> s <= kept[k] <= e
    ensures Increasing(kept)
  {
    [s] + KeptBetween(sqrt, points, epsilon, s, e) + [e]
  }

  /** The indices of the points that the simplification returns. */
  function KeptIndices(sqrt: real -> real, points: seq<Point>, epsilon: real): (kept: seq<nat>)
    ensures forall k :: 0 <= k < |kept| ==> kept[k] < |points|
    ensures Increasing(kept)
  {
    if |points| <= 2 || epsilon <= 0.0 then seq(|points|, i => i)
    else KeptSpan(sqrt, points, epsilon, 0, |points| - 1)
  }

  function Select(points: seq<Point>, indices: seq<nat>): (r: seq<Point>)
    requires forall k :: 0 <= k < |indices| ==> indices[k] < |points|
  {
    seq(|indices|, k requires 0 <= k < |indices| => points[indices[k]])
  }

  function Simplified(sqrt: real -> real, points: seq<Point>, epsilon: real): seq<Point> {
    Select(points, KeptIndices(sqrt, points, epsilon))
  }

  /** The split point of an interval, when there is one. */
  ghost predicate Splits(sqrt: real -> real, points: seq<Point>, epsilon: real, s: nat, e: nat)
    requires s < e < |points|
  {
    s + 2 <= e && Deviation(sqrt, points, s, e, FarthestBefore(sqrt, points, s, e, e)) > epsilon
  }

  /** One unfolding of `KeptBetween`, so that proofs about it can keep its definition hidden. */
  lemma KeptUnfold(sqrt: real -> real, points: seq<Point>, epsilon: real, s: nat, e: nat)
    requires s < e < |points|
    ensures !Splits(sqrt, points, epsilon, s, e) ==> KeptBetween(sqrt, points, epsilon, s, e) == []
    ensures Splits(sqrt, points, epsilon, s, e) ==>
              var m := FarthestBefore(sqrt, points, s, e, e);
              KeptBetween(sqrt, points, epsilon, s, e)
                == KeptBetween(sqrt, points, epsilon, s, m) + [m] + KeptBetween(sqrt, points, epsilon, m, e)
  {
  }

  lemma KeptCases(sqrt: real -> real, points: seq<Point>, epsilon: real, s: nat, e: nat, i: nat)
    requires s < i < e < |points|
    ensures i in KeptBetween(sqrt, points, epsilon, s, e) <==>
              Splits(sqrt, points, epsilon, s, e) &&
              var m := FarthestBefore(sqrt, points, s, e, e);
              i == m || (i < m && i in KeptBetween(sqrt, points, epsilon, s, m))
                     || (m < i && i in KeptBetween(sqrt, points, epsilon, m, e))
  {
  }

  // ----- the loops -----

  method FindFarthest(sqrt: real -> real, points: seq<Point>, s: nat, e: nat) returns (index: int, maxDistance: real)
    requires IsSqrt(sqrt)
    requires s + 2 <= e < |points|
    ensures index == FarthestBefore(sqrt, points, s, e, e)
    ensures maxDistance == Deviation(sqrt, points, s, e, index)
  {
    maxDistance := -1.0;
    index := -1;
    for i := s + 1 to e
      invariant i == s + 1 ==> maxDistance == -1.0 && index == -1
      invariant i > s + 1 ==> index == FarthestBefore(sqrt, points, s, e, i)
                              && maxDistance == Deviation(sqrt, points, s, e, index)
    {
      var distance := Deviation(sqrt, points, s, e, i);
      assert distance >= 0.0 by { DistanceFacts(sqrt, points[i], Projected(points[i], points[s], points[e])); }
      hide Deviation;
      if distance > maxDistance {
        maxDistance := distance;
        index := i;
      }
    }
  }

  method Simplify(sqrt: real -> real, points: seq<Point>, epsilon: real, keep: array<bool>, s: nat, e: nat)
    requires IsSqrt(sqrt) && epsilon > 0.0
    requires s < e < |points| == keep.Length
    requires forall i :: s < i < e ==> !keep[i]
    modifies keep
    ensures forall i :: s < i < e ==> (keep[i] <==> i in KeptBetween(sqrt, points, epsilon, s, e))
    ensures forall i :: 0 <= i < keep.Length && !(s < i < e) ==> keep[i] == old(keep[i])
    decreases e - s
  {
    hide KeptBetween, Deviation, FarthestBefore;
    forall i | s < i < e
      ensures i in KeptBetween(sqrt, points, epsilon, s, e) <==>
              Splits(sqrt, points, epsilon, s, e) &&
              var m := FarthestBefore(sqrt, points, s, e, e);
              i == m || (i < m && i in KeptBetween(sqrt, points, epsilon, s, m))
                     || (m < i && i in KeptBetween(sqrt, points, epsilon, m, e))
    {
      KeptCases(sqrt, points, epsilon, s, e, i);
    }
    if e - s < 2 {
      return;
    }
    var index, maxDistance := FindFarthest(sqrt, points, s, e);
    if maxDistance > epsilon && index >= 0 {
      keep[index] := true;
      Simplify(sqrt, points, epsilon, keep, s, index);
      Simplify(sqrt, points, epsilon, keep, index, e);
    }
  }

  /** Reads the flags back: the points whose flag is set, in order. */
  method Collect(points: seq<Point>, keep: array<bool>, ghost kept: seq<nat>) returns (out: seq<Point>)
    requires keep.Length == |points|
    requires forall k :: 0 <= k < |kept| ==> kept[k] < |points|
    requires Increasing(kept)
    requires forall i :: 0 <= i < |points| ==> (keep[i] <==> i in kept)
    ensures out == Select(points, kept)
  {
    out := [];
    ghost var k := 0;
    for i := 0 to |points|
      invariant k <= |kept|
      invariant forall j :: 0 <= j < k ==> kept[j] < i
      invariant forall j :: k <= j < |kept| ==> i <= kept[j]
      invariant |out| == k && forall j :: 0 <= j < k ==> out[j] == points[kept[j]]
    {
      if keep[i] {
        assert i == kept[k];
        out := out + [points[i]];
        k := k + 1;
      }
    }
  }

  method RdpSimplify(sqrt: real -> real, points: seq<Point>, epsilon: real) returns (out: seq<Point>)
    requires IsSqrt(sqrt)
    ensures out == Simplified(sqrt, points, epsilon)
  {
    if |points| <= 2 || epsilon <= 0.0 {
      return points;
    }
    var keep := new bool[|points|](_ => false);
    keep[0] := true;
    keep[|points| - 1] := true;
    Simplify(sqrt, points, epsilon, keep, 0, |points| - 1);
    hide KeptBetween;
    out := Collect(points, keep, KeptIndices(sqrt, points, epsilon));
  }

  // ----- what the simplification promises -----

  /** Every point strictly between `a` and `b` deviates from their segment by at most `epsilon`. */
  ghost predicate GapWithinEpsilon(sqrt: real -> real, points: seq<Point>, epsilon: real, a: nat, b: nat)
    requires a < |points| && b < |points|
  {
    forall j :: a < j < b ==> Deviation(sqrt, points, a, b, j) <= epsilon
  }

  ghost predicate WithinEpsilon(sqrt: real -> real, points: seq<Point>, epsilon: real, kept: seq<nat>)
    requires forall k :: 0 <= k < |kept| ==> kept[k] < |points|
  {
    forall k :: 0 <= k < |kept| - 1 ==> GapWithinEpsilon(sqrt, points, epsilon, kept[k], kept[k + 1])
  }

  lemma {:induction false} SpanWithinEpsilon(sqrt: real -> real, points: seq<Point>, epsilon: real, s: nat, e: nat)
    requires s < e < |points|
    ensures WithinEpsilon(sqrt, points, epsilon, KeptSpan(sqrt, points, epsilon, s, e))
    decreases e - s
  {
    SpanUnfold(sqrt, points, epsilon, s, e);
    hide KeptBetween, KeptSpan, FarthestBefore, Deviation, WithinEpsilon;
    if Splits(sqrt, points, epsilon, s, e) {
      var m := FarthestBefore(sqrt, points, s, e, e);
      SpanWithinEpsilon(sqrt, points, epsilon, s, m);
      SpanWithinEpsilon(sqrt, points, epsilon, m, e);
      JoinWithinEpsilon(sqrt, points, epsilon, KeptSpan(sqrt, points, epsilon, s, m),
                        KeptSpan(sqrt, points, epsilon, m, e));
    } else {
      NoSplitWithinEpsilon(sqrt, points, epsilon, s, e);
    }
  }

  lemma SpanUnfold(sqrt: real -> real, points: seq<Point>, epsilon: real, s: nat, e: nat)
    requires s < e < |points|
    ensures !Splits(sqrt, points, epsilon, s, e) ==> KeptSpan(sqrt, points, epsilon, s, e) == [s, e]
    ensures Splits(sqrt, points, epsilon, s, e) ==>
              var m := FarthestBefore(sqrt, points, s, e, e);
              KeptSpan(sqrt, points, epsilon, s, e)
                == KeptSpan(sqrt, points, epsilon, s, m) + KeptSpan(sqrt, points, epsilon, m, e)[1..]
  {
    KeptUnfold(sqrt, points, epsilon, s, e);
    hide KeptBetween, FarthestBefore, Deviation, Increasing;
    if Splits(sqrt, points, epsilon, s, e) {
      var m := FarthestBefore(sqrt, points, s, e, e);
      JoinSpans(s, KeptBetween(sqrt, points, epsilon, s, m), m, KeptBetween(sqrt, points, epsilon, m, e), e);
    }
  }

  lemma JoinSpans(s: nat, left: seq<nat>, m: nat, right: seq<nat>, e: nat)
    ensures [s] + (left + [m] + right) + [e] == ([s] + left + [m]) + ([m] + right + [e])[1..]
  {
  }

  lemma NoSplitWithinEpsilon(sqrt: real -> real, points: seq<Point>, epsilon: real, s: nat, e: nat)
    requires s < e < |points| && !Splits(sqrt, points, epsilon, s, e)
    ensures WithinEpsilon(sqrt, points, epsilon, [s, e])
  {
    hide Deviation;
    if s + 2 <= e {
      var m := FarthestBefore(sqrt, points, s, e, e);
      assert IsFirstFarthest(sqrt, points, s, e, e, m);
    }
  }

  lemma JoinWithinEpsilon(sqrt: real -> real, points: seq<Point>, epsilon: real, left: seq<nat>, right: seq<nat>)
    requires left != [] && right != [] && left[|left| - 1] == right[0]
    requires forall k :: 0 <= k < |left| ==> left[k] < |points|
    requires forall k :: 0 <= k < |right| ==> right[k] < |points|
    requires WithinEpsilon(sqrt, points, epsilon, left) && WithinEpsilon(sqrt, points, epsilon, right)
    ensures WithinEpsilon(sqrt, points, epsilon, left + right[1..])
  {
    hide GapWithinEpsilon;
    var span := left + right[1..];
    forall k | 0 <= k < |span| - 1
      ensures GapWithinEpsilon(sqrt, points, epsilon, span[k], span[k + 1])
    {
      if k < |left| - 1 {
        assert span[k] == left[k] && span[k + 1] == left[k + 1];
      } else {
        var l := k - (|left| - 1);
        assert span[k] == right[l] && span[k + 1] == right[l + 1];
      }
    }
  }

  /** Every dropped point is within `epsilon` of the segment between its two kept neighbours, and the
      kept indices start with the first point and end with the last. */
  lemma ErrorBound(sqrt: real -> real, points: seq<Point>, epsilon: real)
    ensures var kept := KeptIndices(sqrt, points, epsilon);
            && WithinEpsilon(sqrt, points, epsilon, kept)
            && (points != [] ==> kept != [] && kept[0] == 0 && kept[|kept| - 1] == |points| - 1)
  {
    if |points| > 2 && epsilon > 0.0 {
      SpanWithinEpsilon(sqrt, points, epsilon, 0, |points| - 1);
    }
  }

  /** The neighbour interval of `kept` that holds the index `i`. */
  lemma {:induction false} Bracket(kept: seq<nat>, i: nat) returns (k: nat)
    requires |kept| >= 2 && kept[0] <= i < kept[|kept| - 1]
    ensures k < |kept| - 1 && kept[k] <= i < kept[k + 1]
    decreases |kept|
  {
    if i < kept[1] {
      k := 0;
    } else {
      k := Bracket(kept[1..], i);
      k := k + 1;
    }
  }

  /** Some point of the polyline `line` is within `epsilon` of `p`. */
  ghost predicate NearPolyline(sqrt: real -> real, p: Point, line: seq<Point>, epsilon: real) {
    || (exists k :: 0 <= k < |line| && line[k] == p)
    || (exists k :: 0 <= k < |line| - 1 && NearSegment(sqrt, p, line[k], line[k + 1], epsilon))
  }

  ghost predicate NearSegment(sqrt: real -> real, p: Point, a: Point, b: Point, epsilon: real) {
    exists t: real :: 0.0 <= t <= 1.0 && Distance(sqrt, p, Lerp(a, b, t)) <= epsilon
  }

  /** The deviation is the true distance to the segment: attained on it, and beaten nowhere on it. */
  lemma DeviationIsDistanceToSegment(sqrt: real -> real, p: Point, a: Point, b: Point, epsilon: real)
    requires IsSqrt(sqrt)
    ensures Distance(sqrt, p, Projected(p, a, b)) <= epsilon <==> NearSegment(sqrt, p, a, b, epsilon)
  {
    if NearSegment(sqrt, p, a, b, epsilon) {
      var t: real :| 0.0 <= t <= 1.0 && Distance(sqrt, p, Lerp(a, b, t)) <= epsilon;
      ProjectionOptimal(sqrt, p, a, b, t);
    }
    if Distance(sqrt, p, Projected(p, a, b)) <= epsilon {
      var t := ProjectionRatio(p, a, b);
      assert 0.0 <= t <= 1.0 && Distance(sqrt, p, Lerp(a, b, t)) <= epsilon;
    }
  }

  /** Every original point is a point of the simplified polyline or within `epsilon` of one of its segments. */
  lemma EveryPointNearSimplified(sqrt: real -> real, points: seq<Point>, epsilon: real, i: nat)
    requires IsSqrt(sqrt)
    requires i < |points|
    ensures NearPolyline(sqrt, points[i], Simplified(sqrt, points, epsilon), epsilon)
  {
    var kept := KeptIndices(sqrt, points, epsilon);
    ErrorBound(sqrt, points, epsilon);
    hide KeptIndices;
    var line := Simplified(sqrt, points, epsilon);
    if i == |points| - 1 {
      assert line[|kept| - 1] == points[i];
    } else {
      var k := Bracket(kept, i);
      if kept[k] == i {
        assert line[k] == points[i];
      } else {
        assert GapWithinEpsilon(sqrt, points, epsilon, kept[k], kept[k + 1]);
        var a, b := kept[k], kept[k + 1];
        assert Deviation(sqrt, points, a, b, i) <= epsilon;
        DeviationIsDistanceToSegment(sqrt, points[i], points[a], points[b], epsilon);
        assert line[k] == points[a] && line[k + 1] == points[b];
      }
    }
  }

  // ----- which points are dropped -----

  ghost predicate InnerNear(sqrt: real -> real, points: seq<Point>, epsilon: real)
    requires |points| >= 2
  {
    forall i :: 0 < i < |points| - 1 ==> NearSegment(sqrt, points[i], points[0], points[|points| - 1], epsilon)
  }

  /** Only the two ends remain exactly if every inner point is within `epsilon` of the segment that joins them. */
  lemma OnlyEndsRemain(sqrt: real -> real, points: seq<Point>, epsilon: real)
    requires IsSqrt(sqrt) && |points| >= 2 && epsilon > 0.0
    ensures Simplified(sqrt, points, epsilon) == [points[0], points[|points| - 1]] <==> InnerNear(sqrt, points, epsilon)
  {
    var e := |points| - 1;
    KeptUnfold(sqrt, points, epsilon, 0, e);
    forall i | 0 < i < e
      ensures Deviation(sqrt, points, 0, e, i) <= epsilon
              <==> NearSegment(sqrt, points[i], points[0], points[e], epsilon)
    {
      DeviationIsDistanceToSegment(sqrt, points[i], points[0], points[e], epsilon);
    }
    hide KeptBetween, Deviation, NearSegment, Increasing;
    if e >= 2 {
      var m := FarthestBefore(sqrt, points, 0, e, e);
      assert IsFirstFarthest(sqrt, points, 0, e, e, m);
    }
  }

  /** A kept inner point was needed: between two other kept points around it, it is the first of the farthest from
      their segment, and further than `epsilon`. */
  ghost predicate IsNeeded(sqrt: real -> real, points: seq<Point>, epsilon: real, kept: seq<nat>, m: nat) {
    exists s: nat, e: nat :: s in kept && e in kept && IsFirstFarthest(sqrt, points, s, e, e, m)
                             && Deviation(sqrt, points, s, e, m) > epsilon
  }

  lemma {:induction false} SpanIsNeeded(sqrt: real -> real, points: seq<Point>, epsilon: real, s: nat, e: nat, m: nat)
    requires s < e < |points| && m in KeptBetween(sqrt, points, epsilon, s, e)
    ensures IsNeeded(sqrt, points, epsilon, KeptSpan(sqrt, points, epsilon, s, e), m)
    decreases e - s
  {
    KeptCases(sqrt, points, epsilon, s, e, m);
    SpanUnfold(sqrt, points, epsilon, s, e);
    hide KeptBetween, Deviation, Increasing, IsFirstFarthest;
    var split := FarthestBefore(sqrt, points, s, e, e);
    var kept := KeptSpan(sqrt, points, epsilon, s, e);
    var left, right := KeptSpan(sqrt, points, epsilon, s, split), KeptSpan(sqrt, points, epsilon, split, e);
    SpanParts(left, right);
    if m < split {
      SpanIsNeeded(sqrt, points, epsilon, s, split, m);
    } else if m > split {
      SpanIsNeeded(sqrt, points, epsilon, split, e, m);
    } else {
      assert kept[0] == s && kept[|kept| - 1] == e;
    }
  }

  lemma SpanParts(left: seq<nat>, right: seq<nat>)
    requires left != [] && right != [] && left[|left| - 1] == right[0]
    ensures forall i :: i in left || i in right ==> i in left + right[1..]
  {
    assert left[|left| - 1] in left;
    assert right == [right[0]] + right[1..];
  }

  lemma InnerKept(sqrt: real -> real, points: seq<Point>, epsilon: real, k: nat)
    requires epsilon > 0.0 && |points| > 2 && 0 < k < |KeptIndices(sqrt, points, epsilon)| - 1
    ensures KeptIndices(sqrt, points, epsilon) == KeptSpan(sqrt, points, epsilon, 0, |points| - 1)
    ensures KeptIndices(sqrt, points, epsilon)[k] in KeptBetween(sqrt, points, epsilon, 0, |points| - 1)
  {
    var inner := KeptBetween(sqrt, points, epsilon, 0, |points| - 1);
    hide KeptBetween, Increasing, Inside;
    assert KeptIndices(sqrt, points, epsilon)[k] == inner[k - 1];
  }

  /** No point is kept without need. */
  lemma KeptIsNeeded(sqrt: real -> real, points: seq<Point>, epsilon: real, k: nat)
    requires epsilon > 0.0 && |points| > 2 && 0 < k < |KeptIndices(sqrt, points, epsilon)| - 1
    ensures var kept := KeptIndices(sqrt, points, epsilon); IsNeeded(sqrt, points, epsilon, kept, kept[k])
  {
    hide *;
    InnerKept(sqrt, points, epsilon, k);
    SpanIsNeeded(sqrt, points, epsilon, 0, |points| - 1, KeptIndices(sqrt, points, epsilon)[k]);
  }

  // ----- simplifying twice -----

  /** The stretch o-end of `q` shows point `s`, then the points `inner`, then point `e`. */
  ghost predicate Shows(points: seq<Point>, s: nat, inner: seq<nat>, e: nat, q: seq<Point>, o: nat, end: nat) {
    && s < |points| && e < |points| && (forall k :: 0 <= k < |inner| ==> inner[k] < |points|)
    && end == o + |inner| + 1 < |q|
    && q[o] == points[s]
    && (forall k :: 0 <= k < |inner| ==> q[o + 1 + k] == points[inner[k]])
    && q[end] == points[e]
  }

  /** If `q` shows a span, it shows its two halves that meet at `m`. */
  lemma HalvesShown(points: seq<Point>, s: nat, left: seq<nat>, m: nat, right: seq<nat>, e: nat,
                    q: seq<Point>, o: nat, end: nat) returns (mid: nat)
    requires Shows(points, s, left + [m] + right, e, q, o, end)
    ensures Shows(points, s, left, m, q, o, mid) && Shows(points, m, right, e, q, mid, end)
    ensures o < mid < end
  {
    mid := o + 1 + |left|;
    var inner := left + [m] + right;
    assert inner[|left|] == m;
    assert forall k :: 0 <= k < |left| ==> left[k] == inner[k];
    forall k | 0 <= k < |right|
      ensures right[k] < |points| && q[mid + 1 + k] == points[right[k]]
    {
      assert right[k] == inner[|left| + 1 + k];
      assert q[o + 1 + (|left| + 1 + k)] == points[inner[|left| + 1 + k]];
    }
  }

  /** Where `q` shows a simplified span of `points`, a second pass over that stretch of `q` keeps every point. */
  lemma {:induction false} SpanKeptAgain(sqrt: real -> real, points: seq<Point>, epsilon: real, s: nat, e: nat,
                                         q: seq<Point>, o: nat, end: nat)
    requires s < e < |points| && o < end < |q|
    requires Shows(points, s, KeptBetween(sqrt, points, epsilon, s, e), e, q, o, end)
    ensures KeptBetween(sqrt, q, epsilon, o, end) == Between(o, end)
    decreases e - s
  {
    KeptUnfold(sqrt, points, epsilon, s, e);
    if Splits(sqrt, points, epsilon, s, e) {
      hide KeptBetween, FarthestBefore, Deviation, Increasing, Inside, Shows, IsFirstFarthest, Between, Splits;
      var m := FarthestBefore(sqrt, points, s, e, e);
      var left, right := KeptBetween(sqrt, points, epsilon, s, m), KeptBetween(sqrt, points, epsilon, m, e);
      var mid := HalvesShown(points, s, left, m, right, e, q, o, end);
      SplitKeptAgain(sqrt, points, epsilon, s, e, left, right, q, o, mid, end);
      SpanKeptAgain(sqrt, points, epsilon, s, m, q, o, mid);
      SpanKeptAgain(sqrt, points, epsilon, m, e, q, mid, end);
      KeptUnfold(sqrt, q, epsilon, o, end);
      JoinBetween(o, mid, end);
    }
  }

  /** The first farthest point of an interval is still the first farthest among the kept points. */
  lemma SplitKeptAgain(sqrt: real -> real, points: seq<Point>, epsilon: real, s: nat, e: nat,
                       left: seq<nat>, right: seq<nat>, q: seq<Point>, o: nat, mid: nat, end: nat)
    requires s < e < |points| && Splits(sqrt, points, epsilon, s, e)
    requires Inside(left, s, FarthestBefore(sqrt, points, s, e, e))
    requires Inside(right, FarthestBefore(sqrt, points, s, e, e), e)
    requires Shows(points, s, left + [FarthestBefore(sqrt, points, s, e, e)] + right, e, q, o, end)
    requires Shows(points, s, left, FarthestBefore(sqrt, points, s, e, e), q, o, mid)
    ensures Splits(sqrt, q, epsilon, o, end) && FarthestBefore(sqrt, q, o, end, end) == mid
  {
    var m := FarthestBefore(sqrt, points, s, e, e);
    var inner := left + [m] + right;
    forall k | 0 <= k < |inner|
      ensures Deviation(sqrt, q, o, end, o + 1 + k) == Deviation(sqrt, points, s, e, inner[k])
    {
    }
    assert inner[|left|] == m;
    hide Deviation;
    forall i | o < i < end
      ensures Deviation(sqrt, q, o, end, i) <= Deviation(sqrt, q, o, end, mid)
      ensures i < mid ==> Deviation(sqrt, q, o, end, i) < Deviation(sqrt, q, o, end, mid)
    {
      var k := i - o - 1;
      assert Deviation(sqrt, q, o, end, o + 1 + k) == Deviation(sqrt, points, s, e, inner[k]);
    }
    FirstFarthestIsUnique(sqrt, q, o, end, end, mid, FarthestBefore(sqrt, q, o, end, end));
  }

  lemma FirstFarthestIsUnique(sqrt: real -> real, points: seq<Point>, s: nat, e: nat, end: nat, m: nat, m': nat)
    requires IsFirstFarthest(sqrt, points, s, e, end, m) && IsFirstFarthest(sqrt, points, s, e, end, m')
    ensures m == m'
  {
    hide Deviation;
    var d, d' := Deviation(sqrt, points, s, e, m), Deviation(sqrt, points, s, e, m');
    assert d <= d' && d' <= d;
  }

  /** Simplifying an already simplified polyline returns it unchanged. */
  lemma SimplifyTwice(sqrt: real -> real, points: seq<Point>, epsilon: real)
    ensures var once := Simplified(sqrt, points, epsilon);
            Simplified(sqrt, once, epsilon) == once
  {
    var once := Simplified(sqrt, points, epsilon);
    if |points| > 2 && epsilon > 0.0 {
      var e := |points| - 1;
      ShowsSelected(points, 0, KeptBetween(sqrt, points, epsilon, 0, e), e);
      hide KeptBetween, Increasing, Shows;
      SpanKeptAgain(sqrt, points, epsilon, 0, e, once, 0, |once| - 1);
      AllKept(sqrt, once, epsilon);
    } else {
      assert once == points;
    }
  }

  lemma ShowsSelected(points: seq<Point>, s: nat, inner: seq<nat>, e: nat)
    requires s < |points| && e < |points| && forall k :: 0 <= k < |inner| ==> inner[k] < |points|
    ensures Shows(points, s, inner, e, Select(points, [s] + inner + [e]), 0, |inner| + 1)
  {
    var indices := [s] + inner + [e];
    assert forall k :: 0 <= k < |inner| ==> indices[0 + 1 + k] == inner[k];
  }

  lemma AllKept(sqrt: real -> real, points: seq<Point>, epsilon: real)
    requires |points| >= 2
    requires KeptBetween(sqrt, points, epsilon, 0, |points| - 1) == Between(0, |points| - 1)
    ensures Simplified(sqrt, points, epsilon) == points
  {
    hide KeptBetween, Increasing;
    var kept := KeptIndices(sqrt, points, epsilon);
    assert |kept| == |points| && forall i :: 0 <= i < |points| ==> kept[i] == i;
  }
}
