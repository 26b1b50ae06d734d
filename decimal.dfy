/** Currency arithmetic of src/payment.service.ts: Big.js decimals are modelled
    as exact reals, and `round(currencyPrecision)` with `currencyPrecision = 2`
    as rounding to whole cents, half away from zero (Big.js's default
    rounding mode, ROUND_HALF_UP). */
module Decimal {

  /** `currencyPrecision`: two fractional digits. */
  const CentsPerUnit: real := 100.0

  /** `Big(x).round(2)`, counted in cents: a nearest whole number of cents. */
  function Cents(x: real): (r: int)
    ensures r as real - 0.5 <= x * CentsPerUnit <= r as real + 0.5
  {
    if x >= 0.0 then (x * CentsPerUnit + 0.5).Floor
    else -((-x * CentsPerUnit + 0.5).Floor)
  }

  /** `Big(x).round(2)`. */
  function Round2(x: real): real
  {
    Cents(x) as real / CentsPerUnit
  }

  /** `x` has at most two fractional digits. */
  predicate IsWholeCents(x: real)
  {
    (x * CentsPerUnit).Floor as real == x * CentsPerUnit
  }

  /** Rounding moves a value by at most half a cent. */
  lemma Round2Error(x: real)
    ensures -0.005 <= Round2(x) - x <= 0.005
  {
    if x >= 0.0 {
      var f := (x * 100.0 + 0.5).Floor;
      assert f as real <= x * 100.0 + 0.5 < f as real + 1.0;
    } else {
      var f := (-x * 100.0 + 0.5).Floor;
      assert f as real <= -x * 100.0 + 0.5 < f as real + 1.0;
    }
  }

  /** A value that already has two fractional digits is left alone. */
  lemma Round2WholeCents(x: real)
    requires IsWholeCents(x)
    ensures Round2(x) == x
    ensures Cents(x) as real == x * CentsPerUnit
  {
    var n := (x * 100.0).Floor;
    assert n as real == x * 100.0;
    if x >= 0.0 {
      assert (x * 100.0 + 0.5).Floor == n;
    } else {
      assert (-x * 100.0 + 0.5).Floor == -n;
    }
  }

  /** Rounded values have two fractional digits. */
  lemma Round2IsWholeCents(x: real)
    ensures IsWholeCents(Round2(x))
  {
    var c := Cents(x);
    assert Round2(x) * 100.0 == c as real;
  }

  /** Rounding twice is rounding once. */
  lemma Round2Idempotent(x: real)
    ensures Round2(Round2(x)) == Round2(x)
  {
    Round2IsWholeCents(x);
    Round2WholeCents(Round2(x));
  }

  /** Rounding never reverses the order of two values. */
  lemma Round2Monotone(x: real, y: real)
    requires x <= y
    ensures Cents(x) <= Cents(y)
    ensures Round2(x) <= Round2(y)
  {
    if 0.0 <= x {
      var fx, fy := (x * 100.0 + 0.5).Floor, (y * 100.0 + 0.5).Floor;
      assert fx as real <= x * 100.0 + 0.5 <= y * 100.0 + 0.5 < fy as real + 1.0;
    } else if y < 0.0 {
      var fx, fy := (-x * 100.0 + 0.5).Floor, (-y * 100.0 + 0.5).Floor;
      assert fy as real <= -y * 100.0 + 0.5 <= -x * 100.0 + 0.5 < fx as real + 1.0;
    }
  }

  /** Rounding commutes with negation. */
  lemma Round2Symmetric(x: real)
    ensures Cents(-x) == -Cents(x)
  {
  }

  /** The tie rule (ROUND_HALF_UP): a value exactly half-way between two
      whole cents rounds away from zero, on either side of zero. */
  lemma Round2HalfAwayFromZero(c: nat)
    ensures Cents((c as real + 0.5) / CentsPerUnit) == c + 1
    ensures Cents(-((c as real + 0.5) / CentsPerUnit)) == -(c + 1)
  {
    var x := (c as real + 0.5) / CentsPerUnit;
    assert x * CentsPerUnit + 0.5 == (c + 1) as real;
    assert -(-x) * CentsPerUnit + 0.5 == (c + 1) as real;
  }

  /** Sums and differences of whole-cent values are whole-cent values. */
  lemma WholeCentsClosed(x: real, y: real)
    requires IsWholeCents(x) && IsWholeCents(y)
    ensures IsWholeCents(x - y) && IsWholeCents(x + y)
  {
    var m, n := (x * CentsPerUnit).Floor, (y * CentsPerUnit).Floor;
    WholeCentsOf(x - y, m - n);
    WholeCentsOf(x + y, m + n);
  }

  /** A value that is a whole number of cents has two fractional digits. */
  lemma WholeCentsOf(x: real, c: int)
    requires x * CentsPerUnit == c as real
    ensures IsWholeCents(x)
  {
    assert (c as real).Floor == c;
  }
}
