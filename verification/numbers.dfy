/** `Number(x.toFixed(2))`, taken on exact reals: the rounding that the weekly summary and the client apply. */
module Numbers {

  /** Rounds to two decimals, ties away from zero, as `toFixed(2)` does on the magnitude before restoring the sign. */
  function Round2(x: real): (r: real)
    ensures IsHundredths(r)
    ensures x - 1.0 / 200.0 <= r <= x + 1.0 / 200.0
    ensures x >= 0.0 ==> r >= 0.0
    ensures x <= 0.0 ==> r <= 0.0
  {
    if x >= 0.0 then RoundMagnitude(x)
    else
      var m := RoundMagnitude(-x);
      NegatedHundredths(m);
      -m
  }

  lemma NegatedHundredths(r: real)
    requires IsHundredths(r)
    ensures IsHundredths(-r)
  {
    var k := (r * 100.0).Floor;
    assert -r * 100.0 == (-k) as real;
  }

  /** Rounding of a non-negative magnitude: the nearest hundredth, the larger one on a tie. */
  function RoundMagnitude(m: real): (r: real)
    requires m >= 0.0
    ensures IsHundredths(r)
    ensures m - 1.0 / 200.0 < r <= m + 1.0 / 200.0
    ensures r >= 0.0
  {
    var n := (m * 100.0 + 0.5).Floor;
    assert n as real <= m * 100.0 + 0.5 < n as real + 1.0;
    (n as real) / 100.0
  }

  /** `r` has at most two decimals. */
  predicate IsHundredths(r: real) {
    (r * 100.0).Floor as real == r * 100.0
  }

  /** A rounded total is positive exactly when the raw total is at least half a hundredth. */
  lemma Round2PositiveIff(x: real)
    ensures Round2(x) > 0.0 <==> x >= 1.0 / 200.0
  {
    if x >= 0.0 {
      var n := (x * 100.0 + 0.5).Floor;
      assert RoundMagnitude(x) == (n as real) / 100.0;
      assert n as real <= x * 100.0 + 0.5 < n as real + 1.0;
      if x >= 1.0 / 200.0 {
        assert n >= 1;
      } else {
        assert n == 0;
      }
    }
  }

  /** A rounded total is zero exactly when the raw total lies strictly within half a hundredth of zero. */
  lemma Round2ZeroIff(x: real)
    ensures Round2(x) == 0.0 <==> -1.0 / 200.0 < x < 1.0 / 200.0
  {
    Round2PositiveIff(x);
    Round2PositiveIff(-x);
    if x < 0.0 {
      assert Round2(x) == -Round2(-x);
    }
  }

  /** Rounding a magnitude keeps order. */
  lemma RoundMagnitudeMonotone(a: real, b: real)
    requires 0.0 <= a <= b
    ensures RoundMagnitude(a) <= RoundMagnitude(b)
  {
    assert (a * 100.0 + 0.5).Floor <= (b * 100.0 + 0.5).Floor;
  }

  /** Rounding keeps order: a list sorted by raw value stays sorted once rounded. */
  lemma Round2Monotone(x: real, y: real)
    requires x <= y
    ensures Round2(x) <= Round2(y)
  {
    if 0.0 <= x {
      RoundMagnitudeMonotone(x, y);
    } else if y < 0.0 {
      RoundMagnitudeMonotone(-y, -x);
    }
  }
}
