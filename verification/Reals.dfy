/** Facts about products of real numbers. Each lemma is small enough for the solver to prove alone;
    longer proofs hide `Times`, so that what is left to show is linear. */
module Reals {

  function Times(u: real, v: real): real {
    u * v
  }

  function Min(u: real, v: real): real {
    if u <= v then u else v
  }

  function Max(u: real, v: real): real {
    if u >= v then u else v
  }

  function Abs(v: real): real {
    if v < 0.0 then -v else v
  }

  lemma TimesUnits(u: real)
    ensures Times(u, 0.0) == 0.0 && Times(0.0, u) == 0.0
    ensures Times(u, 1.0) == u && Times(1.0, u) == u
  {
  }

  lemma TimesCommutes(u: real, v: real)
    ensures Times(u, v) == Times(v, u)
  {
  }

  lemma TimesAssociates(u: real, v: real, w: real)
    ensures Times(Times(u, v), w) == Times(u, Times(v, w))
  {
  }

  lemma TimesSum(k: real, u: real, v: real)
    ensures Times(k, u + v) == Times(k, u) + Times(k, v)
    ensures Times(k, u - v) == Times(k, u) - Times(k, v)
    ensures Times(u + v, k) == Times(u, k) + Times(v, k)
    ensures Times(u - v, k) == Times(u, k) - Times(v, k)
  {
  }

  lemma TimesNegated(u: real, v: real)
    ensures Times(u, -v) == -Times(u, v) && Times(-u, v) == -Times(u, v)
  {
  }

  lemma TimesSign(u: real, v: real)
    ensures (u >= 0.0 && v >= 0.0) || (u <= 0.0 && v <= 0.0) ==> Times(u, v) >= 0.0
    ensures (u >= 0.0 && v <= 0.0) || (u <= 0.0 && v >= 0.0) ==> Times(u, v) <= 0.0
    ensures Times(u, v) == 0.0 <==> u == 0.0 || v == 0.0
  {
  }

  lemma TimesOrder(k: real, u: real, v: real)
    requires k >= 0.0 && u <= v
    ensures Times(k, u) <= Times(k, v)
  {
  }

  lemma TimesStrict(k: real, u: real, v: real)
    requires k > 0.0 && u < v
    ensures Times(k, u) < Times(k, v)
  {
  }

  lemma EqualFactors(k: real, u: real, v: real)
    requires k > 0.0 && Times(k, u) == Times(k, v)
    ensures u == v
  {
    hide Times;
    if u < v {
      TimesStrict(k, u, v);
    }
    if v < u {
      TimesStrict(k, v, u);
    }
  }

  lemma SquareStrict(low: real, high: real)
    requires 0.0 <= low < high
    ensures Times(low, low) < Times(high, high)
  {
    TimesOrder(low, low, high);
    TimesStrict(high, low, high);
    TimesCommutes(low, high);
    hide Times;
  }

  /** A quotient times its denominator is the numerator. */
  lemma QuotientTimes(u: real, v: real)
    requires v != 0.0
    ensures Times(u / v, v) == u && Times(v, u / v) == u
  {
  }

  lemma QuotientOrder(u: real, w: real, v: real)
    requires v > 0.0
    ensures u <= w <==> u / v <= w / v
    ensures u < w <==> u / v < w / v
  {
    var a := Quotient(u, v);
    var b := Quotient(w, v);
    hide Times;
    if a < b {
      TimesStrict(v, a, b);
    } else {
      TimesOrder(v, b, a);
    }
  }

  /** The quotient, as a number of its own that the solver knows only through its product. */
  lemma Quotient(u: real, v: real) returns (q: real)
    requires v != 0.0
    ensures q == u / v && Times(v, q) == u && Times(q, v) == u
  {
    q := u / v;
  }

  lemma QuotientSign(u: real, v: real)
    requires v > 0.0
    ensures u >= 0.0 <==> u / v >= 0.0
    ensures u <= 0.0 <==> u / v <= 0.0
  {
    var q := Quotient(u, v);
    TimesSign(v, q);
  }
}
