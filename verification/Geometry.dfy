/** Points in space, their Euclidean distance, and the clamped projection of a point onto a
    segment. `math.Sqrt` is a parameter `sqrt` that is only assumed to be an exact square root. */
module Geometry {
  import opened Reals

  datatype Point = Point(x: real, y: real, z: real)

  /** `sqrt` returns the exact non-negative square root of every non-negative number. */
  ghost predicate IsSqrt(sqrt: real -> real) {
    forall v: real :: v >= 0.0 ==> sqrt(v) >= 0.0 && Times(sqrt(v), sqrt(v)) == v
  }

  lemma SqrtMonotone(sqrt: real -> real, u: real, v: real)
    requires IsSqrt(sqrt)
    requires 0.0 <= u <= v
    ensures sqrt(u) <= sqrt(v)
  {
    hide Times;
    if sqrt(u) > sqrt(v) {
      SquareStrict(sqrt(v), sqrt(u));
    }
  }

  function Square(v: real): (r: real)
    ensures r >= 0.0
    ensures r == 0.0 <==> v == 0.0
  {
    TimesSign(v, v);
    Times(v, v)
  }

  function DistanceSquared(a: Point, b: Point): (r: real)
    ensures r >= 0.0
    ensures r == 0.0 <==> a == b
  {
    Square(b.x - a.x) + Square(b.y - a.y) + Square(b.z - a.z)
  }

  function Distance(sqrt: real -> real, a: Point, b: Point): real {
    sqrt(DistanceSquared(a, b))
  }

  lemma DistanceFacts(sqrt: real -> real, a: Point, b: Point)
    requires IsSqrt(sqrt)
    ensures Distance(sqrt, a, b) >= 0.0
    ensures Distance(sqrt, a, b) == 0.0 <==> a == b
    ensures DistanceSquared(a, b) == Square(Distance(sqrt, a, b))
  {
    hide Times, DistanceSquared;
    TimesSign(Distance(sqrt, a, b), Distance(sqrt, a, b));
  }

  /** The point that lies the fraction `t` of the way from `a` to `b`. */
  function Lerp(a: Point, b: Point, t: real): Point {
    Point(a.x + Times(b.x - a.x, t), a.y + Times(b.y - a.y, t), a.z + Times(b.z - a.z, t))
  }

  lemma LerpEnds(a: Point, b: Point)
    ensures Lerp(a, b, 0.0) == a && Lerp(a, b, 1.0) == b
  {
    TimesUnits(b.x - a.x);
    TimesUnits(b.y - a.y);
    TimesUnits(b.z - a.z);
  }

  function Dot(p: Point, a: Point, b: Point): real {
    Times(p.x - a.x, b.x - a.x) + Times(p.y - a.y, b.y - a.y) + Times(p.z - a.z, b.z - a.z)
  }

  function Clamp01(v: real): real {
    var low := if v < 0.0 then 0.0 else v;
    if low > 1.0 then 1.0 else low
  }

  /** The fraction along the segment of the projection of `p`, held within the segment. */
  function ProjectionRatio(p: Point, a: Point, b: Point): (r: real)
    ensures 0.0 <= r <= 1.0
  {
    var denominator := DistanceSquared(a, b);
    if denominator == 0.0 then 0.0 else Clamp01(Dot(p, a, b) / denominator)
  }

  function Projected(p: Point, a: Point, b: Point): Point {
    Lerp(a, b, ProjectionRatio(p, a, b))
  }

  /** A quadratic in `t`: its constant, half its negated slope at 0, and its leading coefficient. */
  function Quadratic(base: real, dot: real, dd: real, t: real): real {
    base - 2.0 * Times(t, dot) + Times(Times(t, t), dd)
  }

  lemma QuadraticSum(b1: real, d1: real, q1: real, b2: real, d2: real, q2: real, b3: real, d3: real, q3: real, t: real)
    ensures Quadratic(b1, d1, q1, t) + Quadratic(b2, d2, q2, t) + Quadratic(b3, d3, q3, t)
         == Quadratic(b1 + b2 + b3, d1 + d2 + d3, q1 + q2 + q3, t)
  {
    TimesSum(t, d1, d2);
    TimesSum(t, d1 + d2, d3);
    TimesSum(Times(t, t), q1, q2);
    TimesSum(Times(t, t), q1 + q2, q3);
    hide Times;
  }

  lemma SquareExpand(v: real, d: real, t: real)
    ensures Square(v + Times(d, t)) == Quadratic(Square(v), -Times(v, d), Square(d), t)
  {
    var w := Times(d, t);
    SquareOfSum(v, w);
    assert Times(v, w) == Times(t, Times(v, d));
    assert Times(w, w) == Times(Times(t, t), Times(d, d));
    TimesNegated(t, Times(v, d));
    hide Times;
  }

  lemma SquareOfSum(a: real, b: real)
    ensures Square(a + b) == Square(a) + 2.0 * Times(a, b) + Square(b)
    ensures Square(a - b) == Square(a) - 2.0 * Times(a, b) + Square(b)
    ensures Square(-a) == Square(a) && Square(a) >= 0.0
  {
    TimesSum(a + b, a, b);
    TimesSum(a, a, b);
    TimesSum(b, a, b);
    TimesSum(a - b, a, b);
    TimesCommutes(a, b);
    TimesNegated(a, a);
    TimesNegated(-a, a);
    TimesSign(a, a);
    hide Times;
  }

  /** The squared distance from `p` to the moving point is a quadratic in its fraction `t`. */
  lemma DistanceQuadratic(p: Point, a: Point, b: Point, t: real)
    ensures DistanceSquared(p, Lerp(a, b, t))
         == Quadratic(DistanceSquared(p, a), Dot(p, a, b), DistanceSquared(a, b), t)
  {
    hide Times, Square, Quadratic;
    var vx, vy, vz := a.x - p.x, a.y - p.y, a.z - p.z;
    var dx, dy, dz := b.x - a.x, b.y - a.y, b.z - a.z;
    SquareExpand(vx, dx, t);
    SquareExpand(vy, dy, t);
    SquareExpand(vz, dz, t);
    QuadraticSum(Square(vx), -Times(vx, dx), Square(dx), Square(vy), -Times(vy, dy), Square(dy),
                 Square(vz), -Times(vz, dz), Square(dz), t);
    var moved := Lerp(a, b, t);
    assert moved.x - p.x == vx + Times(dx, t) && moved.y - p.y == vy + Times(dy, t)
           && moved.z - p.z == vz + Times(dz, t);
    TimesNegated(vx, dx);
    TimesNegated(vy, dy);
    TimesNegated(vz, dz);
    assert p.x - a.x == -vx && p.y - a.y == -vy && p.z - a.z == -vz;
    assert Dot(p, a, b) == -Times(vx, dx) + -Times(vy, dy) + -Times(vz, dz);
    assert DistanceSquared(p, a) == Square(vx) + Square(vy) + Square(vz);
    assert DistanceSquared(a, b) == Square(dx) + Square(dy) + Square(dz);
  }

  /** The clamped vertex minimises the quadratic over [0,1]. */
  lemma ClampedVertexMinimises(base: real, dot: real, dd: real, r: real, t: real)
    requires dd > 0.0 && r == Clamp01(dot / dd)
    requires 0.0 <= t <= 1.0
    ensures Quadratic(base, dot, dd, r) <= Quadratic(base, dot, dd, t)
  {
    var vertex := Quotient(dot, dd);
    var gap := Times(t + r, dd) - 2.0 * dot;
    GapFactors(base, dot, dd, r, t);
    TimesSum(dd, t, r);
    TimesCommutes(t + r, dd);
    TimesUnits(dd);
    hide Times, Quadratic;
    if vertex < 0.0 {
      TimesOrder(dd, vertex, 0.0);
      TimesOrder(dd, 0.0, t);
    } else if vertex > 1.0 {
      TimesOrder(dd, 1.0, vertex);
      TimesOrder(dd, t, 1.0);
    } else if t >= r {
      TimesOrder(dd, r, t);
    } else {
      TimesOrder(dd, t, r);
    }
    TimesSign(t - r, gap);
  }

  lemma GapFactors(base: real, dot: real, dd: real, r: real, t: real)
    ensures Times(t - r, Times(t + r, dd) - 2.0 * dot) == Quadratic(base, dot, dd, t) - Quadratic(base, dot, dd, r)
  {
    assert Times(t - r, Times(t + r, dd)) == Times(Times(t, t), dd) - Times(Times(r, r), dd);
    TimesSum(t - r, Times(t + r, dd), 2.0 * dot);
    assert Times(t - r, 2.0 * dot) == 2.0 * Times(t, dot) - 2.0 * Times(r, dot);
    hide Times;
  }

  lemma ProjectionOptimalSquared(p: Point, a: Point, b: Point, t: real)
    requires 0.0 <= t <= 1.0
    ensures DistanceSquared(p, Projected(p, a, b)) <= DistanceSquared(p, Lerp(a, b, t))
  {
    var r := ProjectionRatio(p, a, b);
    DistanceQuadratic(p, a, b, r);
    DistanceQuadratic(p, a, b, t);
    TimesUnits(t);
    assert a == b ==> Lerp(a, b, t) == a by { hide Times; }
    hide DistanceSquared, Lerp, Dot, Quadratic, Times;
    if a != b {
      ClampedVertexMinimises(DistanceSquared(p, a), Dot(p, a, b), DistanceSquared(a, b), r, t);
    } else {
      LerpEnds(a, b);
    }
  }

  /** No point of the segment is nearer to `p` than the projection. */
  lemma ProjectionOptimal(sqrt: real -> real, p: Point, a: Point, b: Point, t: real)
    requires IsSqrt(sqrt)
    requires 0.0 <= t <= 1.0
    ensures Distance(sqrt, p, Projected(p, a, b)) <= Distance(sqrt, p, Lerp(a, b, t))
  {
    hide Times;
    ProjectionOptimalSquared(p, a, b, t);
    SqrtMonotone(sqrt, DistanceSquared(p, Projected(p, a, b)), DistanceSquared(p, Lerp(a, b, t)));
  }
}
