/**
 * JavaScript arithmetic on integers: `Math.round` of a quotient, and the
 * remainder operator `%`, which truncates toward zero.
 */
module JsMath {
  /**
   * `Math.round(p / q)` in exact arithmetic: the nearest integer, halves
   * rounded up (`Math.floor(p / q + 1/2)`).
   */
  function RoundDiv(p: int, q: int): int
    requires q > 0
  {
    (2 * p + q) / (2 * q)
  }

  /** The rounded quotient is within one half of the exact one. */
  lemma RoundDivMeaning(p: int, q: int)
    requires q > 0
    ensures var r := RoundDiv(p, q);
      2 * q * r <= 2 * p + q < 2 * q * r + 2 * q
  {
    var r := RoundDiv(p, q);
    var m := (2 * p + q) % (2 * q);
    assert 2 * p + q == 2 * q * r + m && 0 <= m < 2 * q;
  }

  /** Multiplying by a non-negative factor keeps the order. */
  lemma MulMono(a: int, b: int, d: int)
    requires a <= b && d >= 0
    ensures d * a <= d * b
  {
    assert d * b - d * a == d * (b - a);
  }

  /** A quotient is at most `k` when the dividend is below `d · (k + 1)`. */
  lemma QuotientAtMost(x: int, d: int, k: int)
    requires d > 0 && x < d * (k + 1)
    ensures x / d <= k
  {
    if x / d > k {
      MulMono(k + 1, x / d, d);
      assert false;
    }
  }

  /** A quotient is at least `k` when the dividend is at least `d · k`. */
  lemma QuotientAtLeast(x: int, d: int, k: int)
    requires d > 0 && d * k <= x
    ensures x / d >= k
  {
    if x / d < k {
      MulMono(x / d + 1, k, d);
      assert false;
    }
  }

  /**
   * `Math.round(100 · c / t)` lies in 0..100 for `0 <= c <= t`, is 0 exactly
   * when `c / t < 1/200`, and below 200 items it is 100 exactly when `c == t`.
   */
  lemma RoundPercentBounds(c: int, t: int)
    requires 0 <= c <= t && t > 0
    ensures 0 <= RoundDiv(100 * c, t) <= 100
    ensures RoundDiv(100 * c, t) == 0 <==> 200 * c < t
    ensures t < 200 ==> (RoundDiv(100 * c, t) == 100 <==> c == t)
  {
    var x, d := 200 * c + t, 2 * t;
    var r := x / d;
    assert RoundDiv(100 * c, t) == r;
    QuotientAtLeast(x, d, 0);
    QuotientAtMost(x, d, 100);
    if c == t {
      QuotientAtLeast(x, d, 100);
    } else if t < 200 {
      assert x < d * 100;
      QuotientAtMost(x, d, 99);
    }
    if 200 * c < t {
      QuotientAtMost(x, d, 0);
    } else {
      QuotientAtLeast(x, d, 1);
    }
  }

  /** From 200 items on, one item short can already round to 100: 199 of 200 gives 99.5, shown as 100. */
  lemma OneShortRoundsToFull()
    ensures RoundDiv(100 * 199, 200) == 100
  {
  }

  /** JavaScript's `a % b` for `b > 0`: the remainder takes the sign of `a`. */
  function JsRem(a: int, b: int): (r: int)
    requires b > 0
    ensures a >= 0 ==> r == a % b
    ensures -b < r < b
  {
    if a >= 0 then a % b else -((-a) % b)
  }
}
