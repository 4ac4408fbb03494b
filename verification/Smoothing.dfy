/** Moving-average smoothing of a path, open or closed. */
module Smoothing {
  import opened Prelude
  import opened Reals
  import opened Geometry

  datatype SmoothingError = InvalidSmoothingWindow | InsufficientUsablePoints

  datatype Axis = X | Y | Z

  function At(p: Point, axis: Axis): real {
    match axis
    case X => p.x
    case Y => p.y
    case Z => p.z
  }

  /** Go's `%`, which truncates toward zero. */
  function TruncatedRemainder(value: int, size: int): int
    requires size > 0
  {
    if value >= 0 then value % size else -((-value) % size)
  }

  /** `mod`: always a valid index, and congruent to the value it is given. */
  function Mod(value: int, size: int): (r: int)
    requires size > 0
    ensures 0 <= r < size
    ensures r == value % size
  {
    var result := TruncatedRemainder(value, size);
    RemainderSigns(value, size);
    if result < 0 then result + size else result
  }

  lemma MultipleInRange(k: int, size: int)
    requires size > 0
    ensures -size < k * size < size ==> k == 0
  {
    if k >= 1 {
      assert (k - 1) * size >= 0;
    } else if k <= -1 {
      assert (-k - 1) * size >= 0;
    }
  }

  lemma RemainderIs(value: int, size: int, q: int, r: int)
    requires size > 0 && 0 <= r < size && value == q * size + r
    ensures value % size == r
  {
    var q', r' := value / size, value % size;
    assert value == q' * size + r';
    MultipleInRange(q - q', size);
    assert (q - q') * size == q * size - q' * size;
  }

  lemma RemainderSigns(value: int, size: int)
    requires size > 0
    ensures value % size == (if (-value) % size == 0 then 0 else size - (-value) % size)
  {
    var q, r := (-value) / size, (-value) % size;
    assert -value == q * size + r;
    if r == 0 {
      assert value == (-q) * size + 0;
      RemainderIs(value, size, -q, 0);
    } else {
      assert value == (-q - 1) * size + (size - r);
      RemainderIs(value, size, -q - 1, size - r);
    }
  }

  /** The index that the window reads `offset` places from `i`: around the loop, or held at an open end. */
  function WindowIndex(i: int, offset: int, n: nat, closed: bool): (index: nat)
    requires n > 0
    ensures index < n
  {
    var index := i + offset;
    if closed then Mod(index, n)
    else if index < 0 then 0
    else if index >= n then n - 1
    else index
  }

  /** The sum of the first `k` of the coordinates in the window around `i`. */
  function WindowSum(points: seq<Point>, axis: Axis, i: nat, half: nat, k: nat, closed: bool): real
    requires points != []
  {
    if k == 0 then 0.0
    else WindowSum(points, axis, i, half, k - 1, closed)
         + At(points[WindowIndex(i, k - 1 - half, |points|, closed)], axis)
  }

  function SmoothedPoint(points: seq<Point>, i: nat, half: nat, closed: bool): Point
    requires points != []
  {
    var w := 2 * half + 1;
    Point(WindowSum(points, X, i, half, w, closed) / (w as real),
          WindowSum(points, Y, i, half, w, closed) / (w as real),
          WindowSum(points, Z, i, half, w, closed) / (w as real))
  }

  function Smoothed(points: seq<Point>, window: int, closed: bool): Result<seq<Point>, SmoothingError> {
    if window < 1 || TruncatedRemainder(window, 2) == 0 then Err(InvalidSmoothingWindow)
    else if |points| < 2 then Err(InsufficientUsablePoints)
    else if window == 1 || |points| == 2 then Ok(points)
    else Ok(seq(|points|, i requires 0 <= i < |points| => SmoothedPoint(points, i, window / 2, closed)))
  }

  method SmoothPoints(points: seq<Point>, window: int, closed: bool) returns (r: Result<seq<Point>, SmoothingError>)
    ensures r == Smoothed(points, window, closed)
  {
    if window < 1 || TruncatedRemainder(window, 2) == 0 {
      return Err(InvalidSmoothingWindow);
    }
    if |points| < 2 {
      return Err(InsufficientUsablePoints);
    }
    if window == 1 || |points| == 2 {
      return Ok(points);
    }
    var half := window / 2;
    var out := new Point[|points|](_ => Point(0.0, 0.0, 0.0));
    for i := 0 to |points|
      invariant forall j :: 0 <= j < i ==> out[j] == SmoothedPoint(points, j, half, closed)
    {
      out[i] := AverageWindow(points, i, half, closed);
    }
    assert out[..] == Smoothed(points, window, closed).value;
    return Ok(out[..]);
  }

  method AverageWindow(points: seq<Point>, i: nat, half: nat, closed: bool) returns (average: Point)
    requires i < |points|
    ensures average == SmoothedPoint(points, i, half, closed)
  {
    var sum := Point(0.0, 0.0, 0.0);
    var count := 0;
    for offset: int := 0 - half to half + 1
      invariant count == offset + half
      invariant sum == Point(WindowSum(points, X, i, half, count, closed), WindowSum(points, Y, i, half, count, closed),
                             WindowSum(points, Z, i, half, count, closed))
    {
      var index := i + offset;
      if closed {
        index := Mod(index, |points|);
      } else if index < 0 {
        index := 0;
      } else if index >= |points| {
        index := |points| - 1;
      }
      assert index == WindowIndex(i, offset, |points|, closed);
      sum := Point(sum.x + points[index].x, sum.y + points[index].y, sum.z + points[index].z);
      count := count + 1;
    }
    average := Point(sum.x / (count as real), sum.y / (count as real), sum.z / (count as real));
  }

  // ----- conservation -----

  /** The sum of a coordinate over all the points. */
  function Total(points: seq<Point>, axis: Axis): real {
    if points == [] then 0.0 else Total(points[..|points| - 1], axis) + At(points[|points| - 1], axis)
  }

  lemma {:induction false} TotalConcat(a: seq<Point>, b: seq<Point>, axis: Axis)
    ensures Total(a + b, axis) == Total(a, axis) + Total(b, axis)
  {
    if b == [] {
      assert a + b == a;
    } else {
      var last := |b| - 1;
      TotalConcat(a, b[..last], axis);
      assert (a + b)[..|a + b| - 1] == a + b[..last];
    }
  }

  /** The sum over the first `m` points of what each reads `shift` places away around the loop. */
  function ShiftedSum(points: seq<Point>, axis: Axis, shift: int, m: nat): real
    requires points != []
  {
    if m == 0 then 0.0
    else ShiftedSum(points, axis, shift, m - 1) + At(points[Mod(m - 1 + shift, |points|)], axis)
  }

  lemma RotatedIndex(i: int, shift: int, n: int)
    requires 0 <= i < n
    ensures var r := shift % n; (i + shift) % n == (if i + r < n then i + r else i + r - n)
  {
    var q, r := shift / n, shift % n;
    assert shift == q * n + r;
    if i + r < n {
      RemainderIs(i + shift, n, q, i + r);
    } else {
      assert (q + 1) * n == q * n + n;
      RemainderIs(i + shift, n, q + 1, i + r - n);
    }
  }

  lemma RotatedPoint(points: seq<Point>, shift: int, m: nat)
    requires m < |points|
    ensures var r := shift % |points|;
            var rotated := points[r..] + points[..r];
            && rotated[m] == points[Mod(m + shift, |points|)]
            && rotated[..m + 1][..m] == rotated[..m] && rotated[..m + 1][m] == rotated[m]
  {
    RotatedIndex(m, shift, |points|);
  }

  lemma {:induction false} ShiftedSumIsRotation(points: seq<Point>, axis: Axis, shift: int, m: nat)
    requires points != [] && m <= |points|
    ensures var r := shift % |points|;
            ShiftedSum(points, axis, shift, m) == Total((points[r..] + points[..r])[..m], axis)
  {
    if m > 0 {
      ShiftedSumIsRotation(points, axis, shift, m - 1);
      RotatedPoint(points, shift, m - 1);
      hide Mod, At;
    }
  }

  /** Every shift of the loop has the same sum. */
  lemma ShiftKeepsTotal(points: seq<Point>, axis: Axis, shift: int)
    requires points != []
    ensures ShiftedSum(points, axis, shift, |points|) == Total(points, axis)
  {
    var r := shift % |points|;
    var rotated := points[r..] + points[..r];
    ShiftedSumIsRotation(points, axis, shift, |points|);
    assert rotated[..|points|] == rotated;
    TotalConcat(points[r..], points[..r], axis);
    TotalConcat(points[..r], points[r..], axis);
    assert points[..r] + points[r..] == points;
  }

  /** The sum over the first `m` points of their windows' first `k` readings. */
  function RowSum(points: seq<Point>, axis: Axis, half: nat, k: nat, m: nat): real
    requires points != []
  {
    if m == 0 then 0.0
    else RowSum(points, axis, half, k, m - 1) + WindowSum(points, axis, m - 1, half, k, true)
  }

  lemma {:induction false} RowSumGrows(points: seq<Point>, axis: Axis, half: nat, k: nat, m: nat)
    requires points != []
    ensures RowSum(points, axis, half, k + 1, m)
         == RowSum(points, axis, half, k, m) + ShiftedSum(points, axis, k - half, m)
  {
    if m > 0 {
      RowSumGrows(points, axis, half, k, m - 1);
      assert m - 1 + (k - half) == m - 1 + (k + 1 - 1 - half);
    }
  }

  lemma {:induction false} RowSumIsMultiple(points: seq<Point>, axis: Axis, half: nat, k: nat)
    requires points != []
    ensures RowSum(points, axis, half, k, |points|) == Times(k as real, Total(points, axis))
  {
    if k == 0 {
      EmptyRows(points, axis, half, |points|);
      TimesUnits(Total(points, axis));
    } else {
      RowSumIsMultiple(points, axis, half, k - 1);
      RowSumGrows(points, axis, half, k - 1, |points|);
      ShiftKeepsTotal(points, axis, k - 1 - half);
      TimesSum(Total(points, axis), (k - 1) as real, 1.0);
      TimesUnits(Total(points, axis));
      hide Times;
    }
  }

  lemma {:induction false} EmptyRows(points: seq<Point>, axis: Axis, half: nat, m: nat)
    requires points != []
    ensures RowSum(points, axis, half, 0, m) == 0.0
  {
    if m > 0 { EmptyRows(points, axis, half, m - 1); }
  }

  lemma SmoothedAt(points: seq<Point>, axis: Axis, i: nat, half: nat, closed: bool)
    requires points != []
    ensures var w := 2 * half + 1;
            Times(w as real, At(SmoothedPoint(points, i, half, closed), axis))
            == WindowSum(points, axis, i, half, w, closed)
  {
    QuotientTimes(WindowSum(points, axis, i, half, 2 * half + 1, closed), (2 * half + 1) as real);
  }

  lemma {:induction false} SmoothedTotal(points: seq<Point>, axis: Axis, half: nat, out: seq<Point>)
    requires points != []
    requires forall i :: 0 <= i < |out| ==> out[i] == SmoothedPoint(points, i, half, true)
    ensures Times((2 * half + 1) as real, Total(out, axis)) == RowSum(points, axis, half, 2 * half + 1, |out|)
  {
    var w := (2 * half + 1) as real;
    if out == [] {
      TimesUnits(w);
    } else {
      var last := |out| - 1;
      SmoothedTotal(points, axis, half, out[..last]);
      SmoothedAt(points, axis, last, half, true);
      TimesSum(w, Total(out[..last], axis), At(out[last], axis));
      hide Times, SmoothedPoint, WindowSum;
    }
  }

  /** Smoothing a closed loop keeps the sum of every coordinate, whatever the window. */
  lemma SmoothingConservesTotal(points: seq<Point>, window: int, axis: Axis)
    requires Smoothed(points, window, true).Ok?
    ensures Total(Smoothed(points, window, true).value, axis) == Total(points, axis)
  {
    var out := Smoothed(points, window, true).value;
    if window > 1 && |points| > 2 {
      var half := window / 2;
      SmoothedTotal(points, axis, half, out);
      RowSumIsMultiple(points, axis, half, window);
      EqualFactors(window as real, Total(out, axis), Total(points, axis));
    }
  }

  lemma {:induction false} WindowSumRange(points: seq<Point>, axis: Axis, i: nat, half: nat, k: nat,
                                           closed: bool, lo: real, hi: real)
    requires points != []
    requires forall j :: 0 <= j < |points| ==> lo <= At(points[j], axis) <= hi
    ensures Times(k as real, lo) <= WindowSum(points, axis, i, half, k, closed) <= Times(k as real, hi)
  {
    if k == 0 {
      TimesUnits(lo);
      TimesUnits(hi);
    } else {
      WindowSumRange(points, axis, i, half, k - 1, closed, lo, hi);
      TimesSum(lo, (k - 1) as real, 1.0);
      TimesSum(hi, (k - 1) as real, 1.0);
      TimesUnits(lo);
      TimesUnits(hi);
      hide Times, At;
    }
  }

  /** Smoothing never leaves the bounding box of the points, on an open path or a closed one. */
  lemma SmoothingStaysInBox(points: seq<Point>, window: int, closed: bool, axis: Axis, lo: real, hi: real, i: nat)
    requires Smoothed(points, window, closed).Ok? && i < |points|
    requires forall j :: 0 <= j < |points| ==> lo <= At(points[j], axis) <= hi
    ensures |Smoothed(points, window, closed).value| == |points|
    ensures lo <= At(Smoothed(points, window, closed).value[i], axis) <= hi
  {
    if window > 1 && |points| > 2 {
      var half, w := window / 2, window as real;
      var v := At(SmoothedPoint(points, i, half, closed), axis);
      WindowSumRange(points, axis, i, half, window, closed, lo, hi);
      SmoothedAt(points, axis, i, half, closed);
      hide Times;
      if v < lo { TimesStrict(w, v, lo); }
      if v > hi { TimesStrict(w, hi, v); }
    }
  }

  // ----- what a smoothed point is -----

  /** The index of position `k`, which may lie outside the path: around the loop, or held at an open end. */
  ghost function IndexOf(k: int, n: nat, closed: bool): (index: nat)
    requires n > 0
    ensures index < n
  {
    if closed then k % n else if k < 0 then 0 else if k < n then k else n - 1
  }

  /** The sum of the coordinates at `count` positions from `from` on. */
  ghost function PositionSum(points: seq<Point>, axis: Axis, from: int, count: nat, closed: bool): real
    requires points != []
  {
    if count == 0 then 0.0
    else PositionSum(points, axis, from, count - 1, closed)
         + At(points[IndexOf(from + count - 1, |points|, closed)], axis)
  }

  lemma {:induction false} WindowIsPositions(points: seq<Point>, axis: Axis, i: nat, half: nat, k: nat, closed: bool)
    requires points != []
    ensures WindowSum(points, axis, i, half, k, closed) == PositionSum(points, axis, i - half, k, closed)
  {
    if k > 0 {
      WindowIsPositions(points, axis, i, half, k - 1, closed);
      assert i + (k - 1 - half) == i - half + k - 1;
    }
  }

  lemma {:induction false} PositionSumSlides(points: seq<Point>, axis: Axis, from: int, count: nat, closed: bool)
    requires points != []
    ensures PositionSum(points, axis, from + 1, count, closed) + At(points[IndexOf(from, |points|, closed)], axis)
            == PositionSum(points, axis, from, count, closed)
               + At(points[IndexOf(from + count, |points|, closed)], axis)
  {
    if count > 0 {
      PositionSumSlides(points, axis, from, count - 1, closed);
      assert from + 1 + count - 1 == from + count;
    }
  }

  /** Smoothing fails exactly for a window that is not odd and positive, or for fewer than two points; a window of
      one and a path of two points change nothing. */
  lemma SmoothingSucceeds(points: seq<Point>, window: int, closed: bool)
    ensures var r := Smoothed(points, window, closed);
            && (r.Ok? <==> window >= 1 && window % 2 == 1 && |points| >= 2)
            && (r == Err(InvalidSmoothingWindow) <==> window < 1 || window % 2 == 0)
            && (r.Ok? ==> |r.value| == |points| && (window == 1 || |points| == 2 ==> r == Ok(points)))
  {
    hide SmoothedPoint;
  }

  /** The window's sum is the smoothed coordinate times the window. */
  lemma SmoothedSum(points: seq<Point>, window: int, closed: bool, axis: Axis, i: nat)
    requires Smoothed(points, window, closed).Ok? && window > 1 && |points| > 2 && i < |points|
    ensures |Smoothed(points, window, closed).value| == |points|
    ensures Times(window as real, At(Smoothed(points, window, closed).value[i], axis))
            == PositionSum(points, axis, i - window / 2, window, closed)
  {
    assert window == 2 * (window / 2) + 1;
    SmoothedAt(points, axis, i, window / 2, closed);
    WindowIsPositions(points, axis, i, window / 2, window, closed);
    hide Times, SmoothedPoint, WindowSum, PositionSum, At;
  }

  /** Every smoothed coordinate is the average of the `window` positions around it. From one point to the next the
      window moves by one position: what enters at its front and what leaves at its end make the difference. */
  lemma SmoothingAverages(points: seq<Point>, window: int, closed: bool, axis: Axis, i: nat)
    requires Smoothed(points, window, closed).Ok? && window > 1 && |points| > 2 && i < |points|
    ensures |Smoothed(points, window, closed).value| == |points|
    ensures var out, half := Smoothed(points, window, closed).value, window / 2;
            && Times(window as real, At(out[i], axis)) == PositionSum(points, axis, i - half, window, closed)
            && (i + 1 < |points| ==>
                  Times(window as real, At(out[i + 1], axis) - At(out[i], axis))
                  == At(points[IndexOf(i - half + window, |points|, closed)], axis)
                     - At(points[IndexOf(i - half, |points|, closed)], axis))
  {
    hide *;
    SmoothedSum(points, window, closed, axis, i);
    if i + 1 < |points| {
      SmoothedSum(points, window, closed, axis, i + 1);
      PositionSumSlides(points, axis, i - window / 2, window, closed);
      assert i + 1 - window / 2 == i - window / 2 + 1;
      var out := Smoothed(points, window, closed).value;
      TimesSum(window as real, At(out[i + 1], axis), At(out[i], axis));
    }
  }
}
