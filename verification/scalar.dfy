/** The scalar helpers of the utility package: two-decimal truncation and the
    noise-aware "significantly different" test. Values are exact reals; the
    `Grid` lemmas restate them on integer hundredths. */
module Scalar {

  const NoiseReductionHigh: string := "high"
  const NoiseReductionLow: string := "low"

  /** Bound used by the near-equality test. */
  const Epsilon: real := 0.000001

  function Abs(x: real): (r: real)
    ensures r >= 0.0 && (r == x || r == -x)
  {
    if x < 0.0 then -x else x
  }

  /** `x` is a whole number of hundredths. */
  predicate OnGrid(x: real)
  {
    (x * 100.0).Floor as real == x * 100.0
  }

  lemma FloorIs(x: real, q: int)
    requires q as real <= x < q as real + 1.0
    ensures x.Floor == q
  {
  }

  /** NormalizeScalar: the largest whole number of hundredths not above `v`
      (truncation, not rounding). */
  function NormalizeScalar(v: real): (r: real)
    ensures OnGrid(r)
    ensures r <= v < r + 0.01
  {
    var q := (v * 100.0).Floor;
    FloorIs((q as real / 100.0) * 100.0, q);
    q as real / 100.0
  }

  /** On the unit interval the normalised value stays in the unit interval,
      at most 0.01 below its input. */
  lemma NormalizeUnitInterval(v: real)
    requires 0.0 <= v <= 1.0
    ensures 0.0 <= NormalizeScalar(v) <= v <= 1.0
    ensures v - 0.01 < NormalizeScalar(v)
  {
    var q := (v * 100.0).Floor;
    assert q >= 0 by {
      assert q as real > v * 100.0 - 1.0;
    }
  }

  /** Normalising a value that is already on the grid leaves it unchanged. */
  lemma NormalizeIdempotent(v: real)
    ensures NormalizeScalar(NormalizeScalar(v)) == NormalizeScalar(v)
  {
    var r := NormalizeScalar(v);
    var q := (r * 100.0).Floor;
    assert q as real == r * 100.0;
    FloorIs(r * 100.0, q);
  }

  /** The normalised position of a raw 10-bit reading, in hundredths: floor(100 * raw / 1023). */
  function Hundredths(raw: int): int
  {
    raw * 100 / 1023
  }

  /** For every raw reading, normalising `raw / 1023` gives `floor(100 * raw / 1023) / 100`. */
  lemma NormalizeRaw(raw: int)
    ensures NormalizeScalar(raw as real / 1023.0) == Hundredths(raw) as real / 100.0
  {
    var q := Hundredths(raw);
    var v := raw as real / 1023.0;
    assert q * 1023 <= raw * 100 < (q + 1) * 1023;
    assert (q * 1023) as real <= (raw * 100) as real < ((q + 1) * 1023) as real;
    assert v * 100.0 == (raw * 100) as real / 1023.0;
    FloorIs(v * 100.0, q);
  }

  /** Raw readings 0..1023 land on hundredths 0..100; the full-scale reading is exactly 100. */
  lemma HundredthsRange(raw: int)
    requires 0 <= raw <= 1023
    ensures 0 <= Hundredths(raw) <= 100
    ensures Hundredths(raw) == 100 <==> raw == 1023
    ensures raw < 1023 ==> Hundredths(raw) < 100
  {
  }

  /** getSignificantDifferenceThreshold: "high", "low", and every other level
      (the empty string included) as the default. */
  function Threshold(level: string): (t: real)
    ensures level == NoiseReductionHigh ==> t == 0.035
    ensures level == NoiseReductionLow ==> t == 0.015
    ensures level != NoiseReductionHigh && level != NoiseReductionLow ==> t == 0.025
  {
    match level
    case "high" => 0.035
    case "low" => 0.015
    case _ => 0.025
  }

  /** almostEquals: strictly closer than one millionth. */
  predicate AlmostEquals(a: real, b: real)
  {
    Abs(a - b) < Epsilon
  }

  /** Near-equality is symmetric and its bound is strict. */
  lemma AlmostEqualsSymmetricStrict(a: real, b: real)
    ensures AlmostEquals(a, b) == AlmostEquals(b, a)
    ensures !AlmostEquals(a, a + Epsilon)
  {
  }

  /** SignificantlyDifferent: a change of at least the threshold, or a move onto
      either end of the range from anywhere else. */
  predicate SignificantlyDifferent(prev: real, next: real, level: string)
  {
    || Abs(prev - next) >= Threshold(level)
    || (AlmostEquals(next, 1.0) && prev != 1.0)
    || (AlmostEquals(next, 0.0) && prev != 0.0)
  }

  /** The smallest change in hundredths that clears each threshold. */
  function MinSteps(level: string): int
  {
    if level == NoiseReductionHigh then 4 else if level == NoiseReductionLow then 2 else 3
  }

  function IntAbs(x: int): nat
  {
    if x < 0 then -x else x
  }

  /** On the hundredths grid, a change is significant exactly when it spans
      MinSteps(level) hundredths or snaps onto 0 or 100 from elsewhere. */
  lemma GridSignificance(o: int, n: int, level: string)
    ensures SignificantlyDifferent(o as real / 100.0, n as real / 100.0, level)
        <==> IntAbs(o - n) >= MinSteps(level) || (n == 100 && o != 100) || (n == 0 && o != 0)
  {
    var d := o as real / 100.0 - n as real / 100.0;
    assert Abs(d) == IntAbs(o - n) as real / 100.0;
    assert Abs(d) >= Threshold(level) <==> IntAbs(o - n) >= MinSteps(level);
    assert AlmostEquals(n as real / 100.0, 1.0) <==> n == 100 by {
      assert Abs(n as real / 100.0 - 1.0) == IntAbs(n - 100) as real / 100.0;
    }
    assert AlmostEquals(n as real / 100.0, 0.0) <==> n == 0 by {
      assert Abs(n as real / 100.0) == IntAbs(n) as real / 100.0;
    }
  }

  /** On the grid a value is never significantly different from itself. */
  lemma GridUnchangedNotSignificant(h: int, level: string)
    ensures !SignificantlyDifferent(h as real / 100.0, h as real / 100.0, level)
  {
    GridSignificance(h, h, level);
  }

  /** The -1 sentinel differs significantly from every value in the unit interval. */
  lemma SentinelAlwaysSignificant(next: real, level: string)
    requires 0.0 <= next <= 1.0
    ensures SignificantlyDifferent(-1.0, next, level)
  {
  }

  /** Slider inversion. */
  function Invert(v: real): real
  {
    1.0 - v
  }

  /** Inversion is its own inverse, keeps the unit interval and maps the grid onto itself. */
  lemma InvertProperties(v: real, h: int)
    ensures Invert(Invert(v)) == v
    ensures 0.0 <= v <= 1.0 ==> 0.0 <= Invert(v) <= 1.0
    ensures Invert(h as real / 100.0) == (100 - h) as real / 100.0
  {
  }
}
