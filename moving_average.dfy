/** The simple moving average as `moving_average.go` computes it on finite
    values.

    `Simple` takes a latest-first series and a period n. After validating the
    two, it averages the n latest points once and then, for each of the
    remaining n - 1 iterations of its outer loop, derives the next entry from
    the previous entry and the point at index n + i. The module states what
    that code computes (`CodeAverages`), when its reads stay inside the series
    (`StaysInBounds`), and that its early `break` never fires.
 */
module MovingAverage {
  import opened Series

  /** The two error sentinels of the repository. */
  datatype Error = InvalidPeriod | NotEnoughDataPoints

  /** A Go `error` value: `None` stands for nil. */
  datatype Option<T> = None | Some(value: T)

  /** Parameter validation: the period is checked before the series length. */
  function ValidateParameters(dataPointsCount: nat, n: nat): (err: Option<Error>)
    ensures err == Some(InvalidPeriod) <==> n == 0
    ensures err == Some(NotEnoughDataPoints) <==> 1 <= n && dataPointsCount < n
    ensures err == None <==> 1 <= n <= dataPointsCount
  {
    if n < 1 then Some(InvalidPeriod)
    else if dataPointsCount < n then Some(NotEnoughDataPoints)
    else None
  }

  /** The read `data[n + i]` of outer iteration i falls inside the series. */
  predicate ReadInRange(dataPointsCount: nat, n: nat, i: nat)
  {
    n + i < dataPointsCount
  }

  /** The guard that ends the outer loop early in iteration i. */
  predicate GuardBreaks(dataPointsCount: nat, n: nat, i: nat)
  {
    n + i - 1 > dataPointsCount
  }

  /** Validated parameters under which no iteration reads past the series. */
  predicate StaysInBounds(dataPointsCount: nat, n: nat)
  {
    n == 1 || 2 * n <= dataPointsCount
  }

  /** The first `count` entries the outer loop produces: the average of the n
      latest points, then each entry is the previous entry plus `data[n + i]`,
      divided by n. */
  function CodeAverages(data: seq<real>, n: nat, count: nat): (averages: seq<real>)
    requires 1 <= n <= |data| && StaysInBounds(|data|, n) && count <= n
    ensures |averages| == count
    ensures count > 0 ==> averages[0] == WindowAvg(data, 0, n)
    decreases count
  {
    if count == 0 then []
    else if count == 1 then [WindowAvg(data, 0, n)]
    else
      var previous := CodeAverages(data, n, count - 1);
      previous + [(previous[count - 2] + data[n + count - 1]) / (n as real)]
  }

  /** Every later entry is derived from the entry before it, whatever the
      number of iterations run. */
  lemma {:induction false} CodeAveragesStep(data: seq<real>, n: nat, count: nat, k: nat)
    requires 1 <= n <= |data| && StaysInBounds(|data|, n)
    requires 1 <= k < count <= n
    ensures n + k < |data|
    ensures CodeAverages(data, n, count)[k]
         == (CodeAverages(data, n, count)[k - 1] + data[n + k]) / (n as real)
  {
    if k < count - 1 {
      CodeAveragesStep(data, n, count - 1, k);
    }
  }

  /** One more outer iteration appends one entry and leaves the earlier ones. */
  lemma CodeAveragesNext(data: seq<real>, n: nat, i: nat)
    requires 1 <= n <= |data| && StaysInBounds(|data|, n) && i < n
    ensures 1 <= i ==> n + i < |data|
    ensures CodeAverages(data, n, i + 1) == CodeAverages(data, n, i) + [
      if i == 0 then WindowAvg(data, 0, n)
      else (CodeAverages(data, n, i)[i - 1] + data[n + i]) / (n as real)]
  {
  }

  /** The moving average as written. Go panics on an out-of-range index; the
      precondition rules that out, and `AccessesInBoundsIff` shows it is
      exactly what every read at `data[n + i]` needs. */
  method Simple(data: seq<real>, n: nat) returns (result: seq<real>, err: Option<Error>)
    requires ValidateParameters(|data|, n) == None ==> StaysInBounds(|data|, n)
    ensures err == ValidateParameters(|data|, n)
    ensures err.Some? ==> result == []
    ensures err.None? ==> result == CodeAverages(data, n, n)
    ensures err.None? ==> |result| == n && result[0] == WindowAvg(data, 0, n)
  {
    err := ValidateParameters(|data|, n);
    if err != None {
      return [], err;
    }

    result := [];
    var previousAverage: Option<real> := None;

    for i := 0 to n
      invariant result == CodeAverages(data, n, i)
      invariant previousAverage == if i == 0 then None else Some(result[i - 1])
    {
      var sumOfNLatestPoints := 0.0;

      if previousAverage == None {
        // the n latest points, summed once
        var j := 0;
        while j < |data|
          invariant j <= n
          invariant sumOfNLatestPoints == Sum(data[..j])
        {
          if j == n {
            break;
          }
          SumSnoc(data[..j], data[j]);
          assert data[..j + 1] == data[..j] + [data[j]];
          sumOfNLatestPoints := sumOfNLatestPoints + data[j];
          j := j + 1;
        }
        assert j == n && data[..n] == data[0..n];
      } else {
        BreakDeadInBounds(|data|, n);
        if GuardBreaks(|data|, n, i) {
          break;
        }
        // the first difference is computed, then overwritten by the second sum
        sumOfNLatestPoints := previousAverage.value - data[i - 1];
        sumOfNLatestPoints := previousAverage.value + data[n + i];
      }

      var currentAverage := sumOfNLatestPoints / (n as real);
      CodeAveragesNext(data, n, i);
      assert result + [currentAverage] == CodeAverages(data, n, i + 1);
      result := result + [currentAverage];
      previousAverage := Some(currentAverage);
    }
  }

  /** On validated parameters, every read `data[n + i]` of the outer loop is
      inside the series exactly when `StaysInBounds` holds. */
  lemma AccessesInBoundsIff(dataPointsCount: nat, n: nat)
    requires ValidateParameters(dataPointsCount, n) == None
    ensures (forall i :: 1 <= i < n ==> ReadInRange(dataPointsCount, n, i))
        <==> StaysInBounds(dataPointsCount, n)
  {
    if !StaysInBounds(dataPointsCount, n) {
      var i := PanickingIteration(dataPointsCount, n);
      assert !ReadInRange(dataPointsCount, n, i);
    }
  }

  /** The early `break` can never fire before an out-of-range read: if every
      earlier iteration read inside the series, the guard of iteration i is
      false. */
  lemma BreakNeverFires(dataPointsCount: nat, n: nat, i: nat)
    requires ValidateParameters(dataPointsCount, n) == None
    requires 1 <= i < n
    requires forall k :: 1 <= k < i ==> ReadInRange(dataPointsCount, n, k)
    ensures !GuardBreaks(dataPointsCount, n, i)
  {
    if i > 1 {
      assert ReadInRange(dataPointsCount, n, i - 1);
    }
  }

  /** Under `StaysInBounds` the guard is false in every iteration after the
      first, so the early `break` is dead code. */
  lemma BreakDeadInBounds(dataPointsCount: nat, n: nat)
    requires ValidateParameters(dataPointsCount, n) == None
    requires StaysInBounds(dataPointsCount, n)
    ensures forall i :: 1 <= i < n ==> !GuardBreaks(dataPointsCount, n, i)
  {
  }

  /** When validation passes but `StaysInBounds` fails, the iteration whose
      read leaves the series: every earlier read was in range and the guard
      does not stop it. */
  function PanickingIteration(dataPointsCount: nat, n: nat): (i: nat)
    requires ValidateParameters(dataPointsCount, n) == None
    requires !StaysInBounds(dataPointsCount, n)
    ensures 1 <= i < n
    ensures !ReadInRange(dataPointsCount, n, i)
    ensures !GuardBreaks(dataPointsCount, n, i)
    ensures forall k :: 1 <= k < i ==> ReadInRange(dataPointsCount, n, k)
  {
    if dataPointsCount - n >= 1 then dataPointsCount - n else 1
  }
}
