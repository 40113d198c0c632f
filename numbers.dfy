/**
 * Exact arithmetic for the proportional scores: JavaScript computes them
 * in floating point, the model with exact reals.
 */
module Numbers {

  /** `count / Math.max(total, 1)` */
  function Ratio(count: nat, total: nat): (r: real)
    ensures 0.0 <= r
    ensures count <= total ==> r <= 1.0
    ensures 0 < count <= total ==> 0.0 < r
    ensures count == total && total > 0 ==> r == 1.0
  {
    var d := if total > 0 then total else 1;
    RatioFacts(count, d);
    count as real / d as real
  }

  lemma RatioFacts(count: nat, d: nat)
    requires d > 0
    ensures 0.0 <= count as real / d as real
    ensures count <= d ==> count as real / d as real <= 1.0
    ensures 0 < count ==> 0.0 < count as real / d as real
    ensures count == d ==> count as real / d as real == 1.0
  {
    var q := count as real / d as real;
    assert q * d as real == count as real;
  }

  /** `Math.round`: the nearest integer, halves rounded up. */
  function Round(x: real): int {
    (x + 0.5).Floor
  }

  /** Rounding keeps a value inside integer bounds. */
  lemma RoundWithin(x: real, lo: int, hi: int)
    requires lo as real <= x <= hi as real
    ensures lo <= Round(x) <= hi
  {
  }

  /** Rounding is monotone. */
  lemma RoundMonotone(x: real, y: real)
    requires x <= y
    ensures Round(x) <= Round(y)
  {
  }

  function Max(x: real, y: real): real {
    if x >= y then x else y
  }

  function Min(x: int, y: int): int {
    if x <= y then x else y
  }
}
