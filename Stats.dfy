/** Reductions over an integer column: the sum, the smallest and largest
    value, the arithmetic mean and Python's `int(...)` of a float. */
module Stats {

  function Sum(xs: seq<int>): int {
    if xs == [] then 0 else xs[0] + Sum(xs[1..])
  }

  /** `column.min()` of a non-empty column: a lower bound that some entry attains. */
  function MinOf(xs: seq<int>): (m: int)
    requires |xs| > 0
    ensures m in xs
    ensures forall i :: 0 <= i < |xs| ==> m <= xs[i]
  {
    if |xs| == 1 then xs[0]
    else var rest := MinOf(xs[1..]); if xs[0] <= rest then xs[0] else rest
  }

  /** `column.max()` of a non-empty column: an upper bound that some entry attains. */
  function MaxOf(xs: seq<int>): (m: int)
    requires |xs| > 0
    ensures m in xs
    ensures forall i :: 0 <= i < |xs| ==> xs[i] <= m
  {
    if |xs| == 1 then xs[0]
    else var rest := MaxOf(xs[1..]); if xs[0] >= rest then xs[0] else rest
  }

  /** `column.mean()`: the exact quotient of the sum by the count, that is,
      the value which taken count times gives the sum. */
  function Mean(xs: seq<int>): (m: real)
    requires |xs| > 0
    ensures m * |xs| as real == Sum(xs) as real
  {
    Sum(xs) as real / |xs| as real
  }

  /** Python's `int(x)` on a float: truncation toward zero. */
  function Trunc(x: real): (r: int)
    ensures 0.0 <= x ==> r as real <= x < r as real + 1.0
    ensures x < 0.0 ==> r as real - 1.0 < x <= r as real
  {
    if x >= 0.0 then x.Floor else -((-x).Floor)
  }

  /** A sum of entries that all lie in [lo, hi] lies between n * lo and n * hi. */
  lemma {:induction false} SumBetween(xs: seq<int>, lo: int, hi: int)
    requires forall i :: 0 <= i < |xs| ==> lo <= xs[i] <= hi
    ensures |xs| * lo <= Sum(xs) <= |xs| * hi
  {
    if xs != [] {
      SumBetween(xs[1..], lo, hi);
      assert |xs| * lo == lo + (|xs| - 1) * lo;
      assert |xs| * hi == hi + (|xs| - 1) * hi;
    }
  }

  /** The mean lies between the smallest and the largest entry. */
  lemma MeanWithin(xs: seq<int>)
    requires |xs| > 0
    ensures MinOf(xs) as real <= Mean(xs) <= MaxOf(xs) as real
  {
    SumBetween(xs, MinOf(xs), MaxOf(xs));
    QuotientBetween(Sum(xs), |xs|, MinOf(xs), MaxOf(xs));
  }

  lemma QuotientBetween(sum: int, n: int, lo: int, hi: int)
    requires n > 0 && n * lo <= sum <= n * hi
    ensures lo as real <= sum as real / n as real <= hi as real
  {
  }

  /** Truncation keeps a value inside any integer interval that contains it. */
  lemma TruncWithin(x: real, lo: int, hi: int)
    requires lo as real <= x <= hi as real
    ensures lo <= Trunc(x) <= hi
  {
  }

  /** The truncated mean of a column lies between its smallest and largest entry. */
  lemma TruncMeanWithin(xs: seq<int>)
    requires |xs| > 0
    ensures MinOf(xs) <= Trunc(Mean(xs)) <= MaxOf(xs)
  {
    MeanWithin(xs);
    TruncWithin(Mean(xs), MinOf(xs), MaxOf(xs));
  }
}
