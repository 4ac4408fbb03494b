/** One-pass mean, extremes and standard deviation of a series. */
module Statistics {
  import opened Prelude
  import opened Reals
  import opened Geometry

  datatype Summary = Summary(avg: real, min: real, max: real, stddev: real)

  function Sum(values: seq<real>): real {
    if values == [] then 0.0 else Sum(values[..|values| - 1]) + values[|values| - 1]
  }

  /** The sum of the squared differences from `center`. */
  function SquaredDeviations(values: seq<real>, center: real): real {
    if values == [] then 0.0
    else SquaredDeviations(values[..|values| - 1], center) + Square(values[|values| - 1] - center)
  }

  lemma PrefixStep(values: seq<real>, i: nat, center: real)
    requires i < |values|
    ensures Sum(values[..i + 1]) == Sum(values[..i]) + values[i]
    ensures SquaredDeviations(values[..i + 1], center)
            == SquaredDeviations(values[..i], center) + Square(values[i] - center)
  {
    assert values[..i + 1][..i] == values[..i];
    hide Square;
  }

  /** Moving the center by `shift` from the mean adds one square of the shift for every value. */
  lemma {:induction false} MovedCenter(values: seq<real>, center: real, shift: real)
    ensures SquaredDeviations(values, center + shift)
            == SquaredDeviations(values, center) + Times(|values| as real, Square(shift))
               - 2.0 * Times(shift, Sum(values) - Times(|values| as real, center))
  {
    TimesUnits(shift);
    TimesUnits(center);
    TimesUnits(Square(shift));
    if values != [] {
      var n := |values| - 1;
      var last := values[n];
      MovedCenter(values[..n], center, shift);
      SquareOfSum(last - center, shift);
      TimesSum(Square(shift), n as real, 1.0);
      TimesSum(center, n as real, 1.0);
      TimesSum(shift, Sum(values[..n]) - Times(n as real, center), last - center);
      TimesCommutes(last - center, shift);
      hide Times, Square;
      assert last - (center + shift) == (last - center) - shift;
      assert (n + 1) as real == n as real + 1.0;
    }
  }

  /** The mean that moves a step towards the next value, and what the step adds to the squares. */
  lemma MeanStep(n: nat, mean: real, value: real, sum: real) returns (step: real)
    requires Times(n as real, mean) == sum
    ensures step == (value - mean) / ((n + 1) as real)
    ensures Times((n + 1) as real, mean + step) == sum + value
    ensures Times(n as real, Square(step)) + Square(value - (mean + step)) == Times(value - mean, value - (mean + step))
  {
    var count := n as real;
    assert (n + 1) as real == count + 1.0;
    step := Quotient(value - mean, count + 1.0);
    TimesSum(count + 1.0, mean, step);
    TimesSum(mean, count, 1.0);
    TimesSum(step, count, 1.0);
    TimesUnits(mean);
    TimesUnits(step);
    TimesCommutes(count, mean);
    TimesCommutes(count, step);
    TimesCommutes(count + 1.0, mean);
    TimesCommutes(count + 1.0, step);
    // value - mean == count * step + step and value - (mean + step) == count * step
    var rest := Times(count, step);
    TimesSum(rest, rest, step);
    TimesAssociates(count, step, step);
    TimesCommutes(rest, step);
    hide Times;
  }

  /** The loop's update: from the mean of the first `i` values to that of one more, and from the sum of their squared
      differences from the one mean to the sum of the squared differences from the other. */
  lemma UpdateExact(values: seq<real>, i: nat, mean: real) returns (next: real)
    requires i < |values| && Times(i as real, mean) == Sum(values[..i])
    ensures next == mean + (values[i] - mean) / ((i + 1) as real)
    ensures Times((i + 1) as real, next) == Sum(values[..i + 1])
    ensures SquaredDeviations(values[..i + 1], next)
            == SquaredDeviations(values[..i], mean) + Times(values[i] - mean, values[i] - next)
  {
    var step := MeanStep(i, mean, values[i], Sum(values[..i]));
    next := mean + step;
    PrefixStep(values, i, next);
    MovedCenter(values[..i], mean, step);
    TimesUnits(step);
    hide Square, Times;
  }

  /** The mean times the number of values is their sum; the squared deviation times that number is the sum of
      the squared differences from the mean. */
  ghost predicate Summarizes(s: Summary, values: seq<real>) {
    && Times(|values| as real, s.avg) == Sum(values)
    && s.stddev >= 0.0 && Times(|values| as real, Square(s.stddev)) == SquaredDeviations(values, s.avg)
    && s.min in values && s.max in values
    && forall v :: v in values ==> s.min <= v <= s.max
  }

  method Summarize(sqrt: real -> real, values: seq<real>) returns (r: Option<Summary>)
    requires IsSqrt(sqrt)
    ensures r.None? <==> values == []
    ensures r.Some? ==> Summarizes(r.value, values)
  {
    if |values| == 0 {
      return None;
    }
    var min, max := values[0], values[0];
    var mean, m2 := 0.0, 0.0;
    TimesUnits(mean);
    for i := 0 to |values|
      invariant Times(i as real, mean) == Sum(values[..i])
      invariant m2 == SquaredDeviations(values[..i], mean)
      invariant min in values && max in values
      invariant forall j :: 0 <= j < i ==> min <= values[j] <= max
    {
      var value := values[i];
      if value < min {
        min := value;
      }
      if value > max {
        max := value;
      }
      var delta := value - mean;
      ghost var next := UpdateExact(values, i, mean);
      hide Square, Times;
      mean := mean + delta / ((i + 1) as real);
      m2 := m2 + Times(delta, value - mean);
    }
    assert values[..|values|] == values;
    Variance(sqrt, values, mean);
    r := Some(Summary(mean, min, max, sqrt(m2 / (|values| as real))));
  }

  lemma Variance(sqrt: real -> real, values: seq<real>, mean: real)
    requires IsSqrt(sqrt) && values != []
    ensures var stddev := sqrt(SquaredDeviations(values, mean) / (|values| as real));
            stddev >= 0.0 && Times(|values| as real, Square(stddev)) == SquaredDeviations(values, mean)
  {
    NoNegativeDeviation(values, mean);
    QuotientSign(SquaredDeviations(values, mean), |values| as real);
    var variance := Quotient(SquaredDeviations(values, mean), |values| as real);
    hide Times;
  }

  lemma {:induction false} NoNegativeDeviation(values: seq<real>, center: real)
    ensures SquaredDeviations(values, center) >= 0.0
  {
    if values != [] {
      NoNegativeDeviation(values[..|values| - 1], center);
      SquareOfSum(values[|values| - 1] - center, 0.0);
      hide Square, Times;
    }
  }

  lemma {:induction false} SumBounds(values: seq<real>, low: real, high: real)
    requires forall v :: v in values ==> low <= v <= high
    ensures Times(|values| as real, low) <= Sum(values) <= Times(|values| as real, high)
  {
    TimesUnits(low);
    TimesUnits(high);
    if values != [] {
      var n := |values| - 1;
      assert forall v :: v in values[..n] ==> v in values;
      SumBounds(values[..n], low, high);
      TimesSum(low, n as real, 1.0);
      TimesSum(high, n as real, 1.0);
      assert (n + 1) as real == n as real + 1.0;
      assert values[n] in values;
      hide Times;
    }
  }

  /** The mean lies between the extremes. */
  lemma MeanBetweenExtremes(s: Summary, values: seq<real>)
    requires Summarizes(s, values) && values != []
    ensures s.min <= s.avg <= s.max
  {
    var n := |values| as real;
    SumBounds(values, s.min, s.max);
    hide Times, SquaredDeviations;
    if s.avg < s.min {
      TimesStrict(n, s.avg, s.min);
    }
    if s.max < s.avg {
      TimesStrict(n, s.max, s.avg);
    }
  }

  function Scaled(values: seq<real>, factor: real, offset: real): (r: seq<real>)
    ensures |r| == |values|
  {
    seq(|values|, i requires 0 <= i < |values| => Times(factor, values[i] - offset))
  }

  lemma {:induction false} SumScaled(values: seq<real>, factor: real, offset: real)
    ensures Sum(Scaled(values, factor, offset)) == Times(factor, Sum(values) - Times(|values| as real, offset))
  {
    TimesUnits(factor);
    TimesUnits(offset);
    if values != [] {
      var n := |values| - 1;
      SumScaled(values[..n], factor, offset);
      assert Scaled(values, factor, offset)[..n] == Scaled(values[..n], factor, offset);
      TimesSum(offset, n as real, 1.0);
      TimesSum(factor, Sum(values[..n]) - Times(n as real, offset), values[n] - offset);
      assert (n + 1) as real == n as real + 1.0;
      hide Times;
    }
  }

  /** Shifting and scaling a series shifts and scales its mean. */
  lemma MeanScaled(s: Summary, values: seq<real>, factor: real, offset: real, scaled: Summary)
    requires values != [] && Summarizes(s, values) && Summarizes(scaled, Scaled(values, factor, offset))
    ensures scaled.avg == Times(factor, s.avg - offset)
  {
    var n := |values| as real;
    SumScaled(values, factor, offset);
    TimesSum(n, s.avg, offset);
    TimesAssociates(n, factor, s.avg - offset);
    TimesAssociates(factor, n, s.avg - offset);
    TimesCommutes(n, factor);
    EqualFactors(n, scaled.avg, Times(factor, s.avg - offset));
    hide Times;
  }
}
