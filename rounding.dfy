/**
 * Decimal rounding over the reals, standing in for Python's `round(x, d)`:
 * x is rounded to d decimal places with halves rounded up.
 */
module Rounding {

  /** 10 raised to the d-th power. */
  function Pow10(d: nat): (p: nat)
    ensures p >= 1
  {
    if d == 0 then 1 else 10 * Pow10(d - 1)
  }

  /** x in units of the d-th decimal place, moved up by half a unit. */
  function Shifted(x: real, d: nat): real
  {
    x * Pow10(d) as real + 0.5
  }

  /** x rounded to d decimal places. */
  function Round(x: real, d: nat): real
  {
    (Shifted(x, d).Floor as real) / Pow10(d) as real
  }

  lemma DivMonotone(a: real, b: real, p: real)
    requires a <= b && p > 0.0
    ensures a / p <= b / p
  {
    assert b / p - a / p == (b - a) / p;
  }

  /** Rounding preserves order. */
  lemma RoundMonotone(x: real, y: real, d: nat)
    requires x <= y
    ensures Round(x, d) <= Round(y, d)
  {
    var p := Pow10(d) as real;
    assert x * p <= y * p;
    assert Shifted(x, d) <= Shifted(y, d);
    assert Shifted(x, d).Floor <= Shifted(y, d).Floor;
    DivMonotone(Shifted(x, d).Floor as real, Shifted(y, d).Floor as real, p);
  }

  /** A value that already has at most d decimal places is left as it is. */
  lemma RoundFixed(m: int, d: nat)
    ensures Round(m as real / Pow10(d) as real, d) == m as real / Pow10(d) as real
  {
    var p := Pow10(d) as real;
    var x := m as real / p;
    assert x * p == m as real;
    assert Shifted(x, d) == m as real + 0.5;
    assert Shifted(x, d).Floor == m;
  }

  /** The rounded value is within half a unit of the d-th decimal place of x. */
  lemma RoundClose(x: real, d: nat)
    ensures x - 0.5 / Pow10(d) as real < Round(x, d) <= x + 0.5 / Pow10(d) as real
  {
    var p := Pow10(d) as real;
    var f := Shifted(x, d).Floor as real;
    assert Shifted(x, d) == x * p + 0.5;
    assert x * p - 0.5 < f <= x * p + 0.5;
    assert f / p == Round(x, d);
    assert (x * p - 0.5) / p == x - 0.5 / p;
    assert (x * p + 0.5) / p == x + 0.5 / p;
    DivMonotone(f, x * p + 0.5, p);
    assert (x * p - 0.5) / p < f / p by {
      assert f / p - (x * p - 0.5) / p == (f - (x * p - 0.5)) / p;
    }
  }

  /** Rounding keeps a value on the 0.0 to 5.0 grade-point scale. */
  lemma RoundInGradeRange(x: real, d: nat)
    requires 0.0 <= x <= 5.0
    ensures 0.0 <= Round(x, d) <= 5.0
  {
    var p := Pow10(d);
    RoundFixed(0, d);
    RoundFixed(5 * p, d);
    assert (5 * p) as real / p as real == 5.0;
    assert 0 as real / p as real == 0.0;
    RoundMonotone(0.0, x, d);
    RoundMonotone(x, 5.0, d);
  }

  /** Dividing by a positive p and multiplying back cancel. */
  lemma DivTimes(a: real, p: real)
    requires p > 0.0
    ensures a / p * p == a
  {
  }

  /** Multiplying by a positive p and dividing back cancel. */
  lemma TimesDiv(a: real, p: real)
    requires p > 0.0
    ensures a * p / p == a
  {
  }

  /** The rounded value has d decimal places: times 10^d it is a whole number. */
  lemma RoundOnGrid(x: real, d: nat)
    ensures (Round(x, d) * Pow10(d) as real).Floor as real == Round(x, d) * Pow10(d) as real
  {
    var n := Shifted(x, d).Floor;
    DivTimes(n as real, Pow10(d) as real);
    assert Round(x, d) * Pow10(d) as real == n as real;
    assert (Round(x, d) * Pow10(d) as real).Floor == n;
  }

  /** Rounding twice to the same number of places is rounding once. */
  lemma RoundIdempotent(x: real, d: nat)
    ensures Round(Round(x, d), d) == Round(x, d)
  {
    var n := Shifted(x, d).Floor;
    assert Round(x, d) == n as real / Pow10(d) as real;
    RoundFixed(n, d);
  }
}
