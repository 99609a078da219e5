/** Decimal rounding of reals, standing in for Python's `round(x, n)`.

    `Round(x, n)` is the multiple of 10^-n nearest to `x`, ties going up.
    The crediting code relies only on the properties proved here: rounding
    is monotone, keeps the sign, leaves a value that already has at most
    `n` decimals unchanged, is idempotent, and moves a value by at most
    half a unit in the last place. Each property is first proved for an
    arbitrary positive scale and then for the scale 10^n. */
module Rounding {

  /** 10^n as a real. */
  function Pow10(n: nat): (p: real)
    ensures p >= 1.0
  {
    if n == 0 then 1.0 else 10.0 * Pow10(n - 1)
  }

  /** `x` times `scale` is a whole number. */
  predicate WholeAtScale(x: real, scale: real)
  {
    (x * scale).Floor as real == x * scale
  }

  /** The multiple of 1/`scale` nearest to `x` (half-up). */
  function RoundAtScale(x: real, scale: real): real
    requires scale > 0.0
  {
    ((x * scale + 0.5).Floor as real) / scale
  }

  /** `x` has at most `n` decimal places. */
  predicate HasPlaces(x: real, n: nat)
  {
    WholeAtScale(x, Pow10(n))
  }

  /** Python's `round(x, n)`, over the reals and with ties going up. */
  function Round(x: real, n: nat): real
  {
    RoundAtScale(x, Pow10(n))
  }

  lemma FloorMonotone(a: real, b: real)
    requires a <= b
    ensures a.Floor <= b.Floor
  {
  }

  lemma RoundAtScaleMonotone(x: real, y: real, scale: real)
    requires scale > 0.0 && x <= y
    ensures RoundAtScale(x, scale) <= RoundAtScale(y, scale)
  {
    assert x * scale <= y * scale;
    FloorMonotone(x * scale + 0.5, y * scale + 0.5);
    var fx := (x * scale + 0.5).Floor as real;
    var fy := (y * scale + 0.5).Floor as real;
    assert fx / scale <= fy / scale;
  }

  lemma RoundAtScaleExact(x: real, scale: real)
    requires scale > 0.0 && WholeAtScale(x, scale)
    ensures RoundAtScale(x, scale) == x
  {
    var k := (x * scale).Floor;
    assert (x * scale + 0.5).Floor == k;
    assert (k as real) / scale == x;
  }

  lemma RoundAtScaleWhole(x: real, scale: real)
    requires scale > 0.0
    ensures WholeAtScale(RoundAtScale(x, scale), scale)
  {
    var k := (x * scale + 0.5).Floor;
    assert RoundAtScale(x, scale) * scale == k as real;
  }

  lemma RoundAtScaleError(x: real, scale: real)
    requires scale > 0.0
    ensures -0.5 / scale < RoundAtScale(x, scale) - x <= 0.5 / scale
  {
    var f := (x * scale + 0.5).Floor as real;
    assert x * scale - 0.5 < f <= x * scale + 0.5;
    assert (x * scale - 0.5) / scale < f / scale <= (x * scale + 0.5) / scale;
  }

  /** Rounding never reverses an order. */
  lemma RoundMonotone(x: real, y: real, n: nat)
    requires x <= y
    ensures Round(x, n) <= Round(y, n)
  {
    RoundAtScaleMonotone(x, y, Pow10(n));
  }

  /** A value with at most `n` decimals is its own rounding. */
  lemma RoundExact(x: real, n: nat)
    requires HasPlaces(x, n)
    ensures Round(x, n) == x
  {
    RoundAtScaleExact(x, Pow10(n));
  }

  /** Every rounded value has at most `n` decimals. */
  lemma RoundHasPlaces(x: real, n: nat)
    ensures HasPlaces(Round(x, n), n)
  {
    RoundAtScaleWhole(x, Pow10(n));
  }

  /** Rounding twice is rounding once. */
  lemma RoundIdempotent(x: real, n: nat)
    ensures Round(Round(x, n), n) == Round(x, n)
  {
    RoundHasPlaces(x, n);
    RoundExact(Round(x, n), n);
  }

  /** Rounding moves a value by at most half a unit in the `n`-th place. */
  lemma RoundError(x: real, n: nat)
    ensures -0.5 / Pow10(n) < Round(x, n) - x <= 0.5 / Pow10(n)
  {
    RoundAtScaleError(x, Pow10(n));
  }

  /** Rounding keeps the sign: non-negative values stay non-negative,
      non-positive values stay non-positive. */
  lemma RoundSign(x: real, n: nat)
    ensures x >= 0.0 ==> Round(x, n) >= 0.0
    ensures x <= 0.0 ==> Round(x, n) <= 0.0
  {
    RoundAtScaleExact(0.0, Pow10(n));
    if x >= 0.0 {
      RoundMonotone(0.0, x, n);
    }
    if x <= 0.0 {
      RoundMonotone(x, 0.0, n);
    }
  }
}
