/**
 * `Math.round` applied to a quotient of integers, as the dashboards use it
 * for their averages, and the rounded mean of a sequence.
 */
module Rounding {
  import opened Seqs

  /**
   * `Math.round(a / n)` for a positive count `n`: the nearest integer, halves
   * rounded up. The inequality pins down exactly one integer.
   */
  function RoundHalfUp(a: int, n: int): (r: int)
    requires n > 0
    ensures 2 * n * r - n <= 2 * a < 2 * n * r + n
  {
    var d := 2 * n;
    var q := (2 * a + n) / d;
    assert d * q + (2 * a + n) % d == 2 * a + n;
    q
  }

  /** A product of two positive factors is positive. */
  lemma MulPositive(n: int, x: int)
    requires n > 0
    ensures x > 0 ==> n * x > 0
  {
    if x > 0 {
      assert n * x == n + n * (x - 1);
    }
  }

  /** Rounding a quotient that lies between `lo` and `hi` stays between them. */
  lemma RoundHalfUpWithin(a: int, n: int, lo: int, hi: int)
    requires n > 0 && n * lo <= a <= n * hi
    ensures lo <= RoundHalfUp(a, n) <= hi
  {
    var r := RoundHalfUp(a, n);
    // above: 2nr - n <= 2a <= 2n*hi, so n * (2(r - hi) - 1) is not positive
    assert n * (2 * (r - hi) - 1) == 2 * n * r - 2 * (n * hi) - n;
    MulPositive(n, 2 * (r - hi) - 1);
    // below: 2n*lo <= 2a < 2nr + n, so n * (2(lo - r) - 1) is negative
    assert n * (2 * (lo - r) - 1) == 2 * (n * lo) - 2 * n * r - n;
    MulPositive(n, 2 * (lo - r) - 1);
  }

  /** A rounded mean: 0 for no items, `Math.round(total / count)` otherwise. */
  function Mean(total: int, count: nat): (r: int)
    ensures count == 0 ==> r == 0
    ensures count > 0 ==> 2 * count * r - count <= 2 * total < 2 * count * r + count
  {
    if count > 0 then RoundHalfUp(total, count) else 0
  }

  /**
   * The rounded mean of a field lies between any bounds that hold for every
   * element, and is 0 for an empty sequence.
   */
  lemma MeanWithinBounds<T>(s: seq<T>, f: T -> int, lo: int, hi: int)
    requires forall k :: 0 <= k < |s| ==> lo <= f(s[k]) <= hi
    ensures s == [] ==> Mean(SumOf(s, f), |s|) == 0
    ensures s != [] ==> lo <= Mean(SumOf(s, f), |s|) <= hi
  {
    if s != [] {
      SumOfBounds(s, f, lo, hi);
      RoundHalfUpWithin(SumOf(s, f), |s|, lo, hi);
    }
  }
}
