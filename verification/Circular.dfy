/** Distances around a loop of fixed length: `math.Mod`, its normalisation, and forward deltas. */
module Circular {
  import opened Prelude
  import opened Reals

  datatype LengthError = InvalidTrackLength

  function Truncate(v: real): int {
    if v >= 0.0 then v.Floor else -((-v).Floor)
  }

  /** The length of `k` whole turns. */
  function Turns(total: real, k: int): real {
    Times(total, k as real)
  }

  /** `math.Mod`: the remainder of the division truncated toward zero. */
  function Mod(v: real, m: real): real
    requires m > 0.0
  {
    v - Turns(m, Truncate(v / m))
  }

  function NormalizeDistance(distance: real, total: real): real {
    if total <= 0.0 then 0.0
    else
      var n0 := Mod(distance, total);
      var n1 := if n0 < 0.0 then n0 + total else n0;
      if n1 == total then 0.0 else n1
  }

  lemma TurnsAdd(total: real, j: int, k: int)
    ensures Turns(total, j + k) == Turns(total, j) + Turns(total, k)
    ensures Turns(total, -k) == -Turns(total, k)
    ensures Turns(total, 0) == 0.0 && Turns(total, 1) == total
  {
    TimesSum(total, j as real, k as real);
    TimesNegated(total, k as real);
    TimesUnits(total);
    hide Times;
  }

  lemma TurnsLarge(total: real, k: int)
    requires total > 0.0
    ensures k >= 1 ==> Turns(total, k) >= total
    ensures k <= -1 ==> Turns(total, k) <= -total
  {
    TimesUnits(total);
    TimesNegated(total, 1.0);
    hide Times;
    if k >= 1 { TimesOrder(total, 1.0, k as real); }
    if k <= -1 { TimesOrder(total, k as real, -1.0); }
  }

  /** `a` and `b` name the same place on a loop of length `total`. */
  ghost predicate Congruent(a: real, b: real, total: real) {
    exists k: int :: a == b + Turns(total, k)
  }

  /** The truncated remainder is nearer to zero than one turn, on the side of the distance. */
  lemma ModRange(v: real, m: real)
    requires m > 0.0
    ensures (v >= 0.0 && 0.0 <= Mod(v, m) < m) || (v <= 0.0 && -m < Mod(v, m) <= 0.0)
  {
    QuotientSign(v, m);
    var q := Quotient(v, m);
    var k, part := TruncatedPart(q);
    TimesSum(m, k, part);
    TimesUnits(m);
    TimesNegated(m, 1.0);
    hide Times, Truncate;
    assert Mod(v, m) == Times(m, part);
    if v >= 0.0 {
      TimesOrder(m, 0.0, part);
      TimesStrict(m, part, 1.0);
    } else {
      TimesOrder(m, part, 0.0);
      TimesStrict(m, -1.0, part);
    }
  }

  lemma TruncatedPart(q: real) returns (k: real, part: real)
    ensures k == Truncate(q) as real && q == k + part
    ensures q >= 0.0 ==> 0.0 <= part < 1.0
    ensures q <= 0.0 ==> -1.0 < part <= 0.0
  {
    k := Truncate(q) as real;
    part := q - k;
  }

  /** The normalised distance is the one place in [0,total) that is congruent to the distance. */
  lemma NormalizeSpec(distance: real, total: real)
    requires total > 0.0
    ensures 0.0 <= NormalizeDistance(distance, total) < total
    ensures Congruent(distance, NormalizeDistance(distance, total), total)
  {
    ModRange(distance, total);
    var k := Truncate(distance / total);
    TurnsAdd(total, k, -1);
    TurnsAdd(total, 0, 1);
    hide Mod, Turns;
    if Mod(distance, total) < 0.0 {
      assert distance == NormalizeDistance(distance, total) + Turns(total, k - 1);
    } else {
      assert distance == NormalizeDistance(distance, total) + Turns(total, k);
    }
  }

  lemma CongruentUnique(a: real, b: real, total: real)
    requires 0.0 <= a < total && 0.0 <= b < total
    requires Congruent(a, b, total)
    ensures a == b
  {
    var k: int :| a == b + Turns(total, k);
    TurnsLarge(total, k);
    TurnsAdd(total, 0, 0);
    hide Turns;
  }

  lemma CongruentTransitive(a: real, b: real, c: real, total: real)
    requires Congruent(a, b, total) && Congruent(b, c, total)
    ensures Congruent(a, c, total)
  {
    var j: int :| a == b + Turns(total, j);
    var k: int :| b == c + Turns(total, k);
    TurnsAdd(total, j, k);
    hide Turns;
    assert a == c + Turns(total, j + k);
  }

  lemma CongruentSymmetric(a: real, b: real, total: real)
    requires Congruent(a, b, total)
    ensures Congruent(b, a, total)
  {
    var k: int :| a == b + Turns(total, k);
    TurnsAdd(total, 0, k);
    hide Turns;
    assert b == a + Turns(total, -k);
  }

  lemma NormalizeFixed(distance: real, total: real)
    requires 0.0 <= distance < total
    ensures NormalizeDistance(distance, total) == distance
  {
    NormalizeSpec(distance, total);
    CongruentUnique(distance, NormalizeDistance(distance, total), total);
  }

  /** Two distances normalise to the same place exactly when they are congruent. */
  lemma NormalizePeriodic(a: real, b: real, total: real)
    requires total > 0.0
    ensures Congruent(a, b, total) <==> NormalizeDistance(a, total) == NormalizeDistance(b, total)
  {
    var na, nb := NormalizeDistance(a, total), NormalizeDistance(b, total);
    NormalizeSpec(a, total);
    NormalizeSpec(b, total);
    hide NormalizeDistance, Congruent;
    CongruentSymmetric(a, na, total);
    CongruentSymmetric(b, nb, total);
    if Congruent(a, b, total) {
      CongruentTransitive(na, a, b, total);
      CongruentTransitive(na, b, nb, total);
      CongruentUnique(na, nb, total);
    }
    if na == nb {
      CongruentTransitive(a, na, b, total);
    }
  }

  function ForwardDelta(previousMeters: real, currentMeters: real, total: real): Result<real, LengthError> {
    if total <= 0.0 then Err(InvalidTrackLength)
    else
      var previous := NormalizeDistance(previousMeters, total);
      var current := NormalizeDistance(currentMeters, total);
      Ok(if current >= previous then current - previous else total - previous + current)
  }

  /** The forward delta is the unique advance in [0,total) that leads from the previous place to the
      current one; the deltas in the two directions add up to a full loop unless both are zero. */
  lemma ForwardDeltaSpec(previous: real, current: real, total: real)
    requires total > 0.0
    ensures var f, r := ForwardDelta(previous, current, total), ForwardDelta(current, previous, total);
            && f.Ok? && r.Ok? && 0.0 <= f.value < total
            && Congruent(previous + f.value, current, total)
            && f.value + r.value == (if Congruent(previous, current, total) then 0.0 else total)
  {
    var p, c := NormalizeDistance(previous, total), NormalizeDistance(current, total);
    NormalizeSpec(previous, total);
    NormalizeSpec(current, total);
    NormalizePeriodic(previous, current, total);
    hide NormalizeDistance;
    var f := ForwardDelta(previous, current, total).value;
    CongruentSymmetric(current, c, total);
    CongruentShift(previous, p, f, total);
    TurnsAdd(total, 0, 1);
    assert p + f == c + Turns(total, if c >= p then 0 else 1) by { hide Congruent; }
    assert Congruent(p + f, c, total);
    hide Congruent;
    CongruentTransitive(previous + f, p + f, c, total);
    CongruentTransitive(previous + f, c, current, total);
  }

  lemma CongruentShift(a: real, b: real, shift: real, total: real)
    requires Congruent(a, b, total)
    ensures Congruent(a + shift, b + shift, total)
  {
    var k: int :| a == b + Turns(total, k);
    hide Turns;
    assert a + shift == b + shift + Turns(total, k);
  }
}
