/** Exact arithmetic over a series of data points.

    The repository keeps its points as arbitrary-precision floats; here they
    are exact reals. A series is ordered latest-first, as `Simple` expects it,
    so `data[i..i + n]` is the window of the n points that start at the i-th
    latest point.
 */
module Series {

  /** The sum of a series, accumulated from the front, one point at a time. */
  function Sum(s: seq<real>): real
  {
    if s == [] then 0.0 else Sum(s[..|s| - 1]) + s[|s| - 1]
  }

  /** Adding one more point at the end adds it to the sum. */
  lemma SumSnoc(s: seq<real>, x: real)
    ensures Sum(s + [x]) == Sum(s) + x
  {
  }

  /** The same sum, taken from the other end: the first point plus the rest. */
  lemma {:induction false} SumCons(s: seq<real>)
    requires s != []
    ensures Sum(s) == s[0] + Sum(s[1..])
  {
    if |s| > 1 {
      SumCons(s[..|s| - 1]);
      assert s[..|s| - 1][1..] == s[1..][..|s[1..]| - 1];
    }
  }

  /** Sliding a window one point towards the older end drops its latest point
      and takes in the next older one. */
  lemma SumSlide(data: seq<real>, i: nat, n: nat)
    requires 1 <= i && 1 <= n && i + n <= |data|
    ensures Sum(data[i..i + n]) == Sum(data[i - 1..i - 1 + n]) - data[i - 1] + data[i + n - 1]
  {
    SumCons(data[i - 1..i - 1 + n]);
    assert data[i - 1..i - 1 + n][1..] == data[i..i + n - 1];
    assert data[i..i + n][..n - 1] == data[i..i + n - 1];
  }

  /** The average of the window of n points that starts at index i. */
  function WindowAvg(data: seq<real>, i: nat, n: nat): real
    requires 1 <= n && i + n <= |data|
  {
    Sum(data[i..i + n]) / (n as real)
  }
}
