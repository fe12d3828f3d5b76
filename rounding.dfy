/**
 * Post-processing of the score: `round(score, -2)`, rounding to the nearest
 * multiple of 100 with ties going to the even hundred, on exact reals.
 */
module Rounding {

  /** Rounding to the nearest integer, ties to the even one. */
  function RoundHalfEven(y: real): (n: int)
    ensures -0.5 <= y - n as real <= 0.5
    ensures (y - n as real == 0.5 || y - n as real == -0.5) ==> n % 2 == 0
  {
    var f := y.Floor;
    var d := y - f as real;
    if d < 0.5 then f
    else if d > 0.5 then f + 1
    else if f % 2 == 0 then f
    else f + 1
  }

  /**
   * The rounded price: a multiple of 100 within 50 of the score, and at an
   * exact tie the even hundred.
   */
  function RoundHundreds(x: real): (p: int)
    ensures p % 100 == 0
    ensures -50.0 <= x - p as real <= 50.0
    ensures (x - p as real == 50.0 || x - p as real == -50.0) ==> (p / 100) % 2 == 0
  {
    var n := RoundHalfEven(x / 100.0);
    assert x - (100 * n) as real == 100.0 * (x / 100.0 - n as real);
    100 * n
  }

  /** No multiple of 100 is nearer to the score than the rounded price. */
  lemma RoundIsNearest(x: real, k: int)
    ensures var p := RoundHundreds(x) as real;
      (if x >= p then x - p else p - x) <= (if x >= 100.0 * k as real then x - 100.0 * k as real else 100.0 * k as real - x)
  {
    var n := RoundHundreds(x) / 100;
    assert RoundHundreds(x) == 100 * n;
    if k != n {
      assert k <= n - 1 || k >= n + 1;
    }
  }

  /** A multiple of 100 strictly nearer than 50 to the score is the rounded price. */
  lemma RoundIsUnique(x: real, k: int)
    requires -50.0 < x - 100.0 * k as real < 50.0
    ensures RoundHundreds(x) == 100 * k
  {
    var n := RoundHundreds(x) / 100;
    assert RoundHundreds(x) == 100 * n;
    assert -1.0 < (n - k) as real < 1.0;
  }

  /** Rounding an already rounded price changes nothing. */
  lemma RoundIdempotent(x: real)
    ensures RoundHundreds(RoundHundreds(x) as real) == RoundHundreds(x)
  {
    var p := RoundHundreds(x);
    RoundIsUnique(p as real, p / 100);
  }

  /** A raw score of 12345.6 becomes 12300; the ties 1250, 1350 and -250 go to 1200, 1400 and -200. */
  lemma RoundExamples()
    ensures RoundHundreds(12345.6) == 12300
    ensures RoundHundreds(1250.0) == 1200
    ensures RoundHundreds(1350.0) == 1400
    ensures RoundHundreds(-250.0) == -200
  {
    RoundIsUnique(12345.6, 123);
    assert RoundHundreds(1250.0) == 1200 by {
      var p := RoundHundreds(1250.0);
      assert p == 1200 || p == 1300 by { RoundIsNearest(1250.0, 12); }
    }
    assert RoundHundreds(1350.0) == 1400 by {
      var p := RoundHundreds(1350.0);
      assert p == 1300 || p == 1400 by { RoundIsNearest(1350.0, 13); }
    }
    assert RoundHundreds(-250.0) == -200 by {
      var p := RoundHundreds(-250.0);
      assert p == -300 || p == -200 by { RoundIsNearest(-250.0, -2); }
    }
  }
}
