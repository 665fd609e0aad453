/** The sliding-window update that the comments of `Simple` describe, and how
    the code as written departs from it.

    For a latest-first series, window i holds the n points `data[i..i + n]`.
    The comments promise that the sum of window i is reused for window i + 1
    by dropping its latest point and taking in the next older point, so that
    one average comes out per full window.
 */
module SlidingWindow {
  import opened Series
  import opened MovingAverage

  /** The running sum of window i, by the recurrence of the comments:
      the first window is summed in full, each later one is the previous sum
      minus `data[i - 1]` plus `data[i + n - 1]`. */
  function SlidingSum(data: seq<real>, n: nat, i: nat): real
    requires 1 <= n && i + n <= |data|
    decreases i
  {
    if i == 0 then Sum(data[..n])
    else SlidingSum(data, n, i - 1) - data[i - 1] + data[i + n - 1]
  }

  /** The recurrence agrees with summing each window from scratch. */
  lemma {:induction false} SlidingSumIsWindowSum(data: seq<real>, n: nat, i: nat)
    requires 1 <= n && i + n <= |data|
    ensures SlidingSum(data, n, i) == Sum(data[i..i + n])
  {
    if i == 0 {
      assert data[..n] == data[0..n];
    } else {
      SlidingSumIsWindowSum(data, n, i - 1);
      SumSlide(data, i, n);
    }
  }

  /** One average per full window, latest window first. */
  function Windows(data: seq<real>, n: nat): seq<real>
    requires 1 <= n <= |data|
  {
    seq(|data| - n + 1, i requires 0 <= i < |data| - n + 1 => WindowAvg(data, i, n))
  }

  /** The moving average the comments describe: the same validation, the n
      latest points summed once, then one sliding step per remaining window. */
  method SimpleCorrected(data: seq<real>, n: nat) returns (result: seq<real>, err: Option<Error>)
    ensures err == ValidateParameters(|data|, n)
    ensures err.Some? ==> result == []
    ensures err.None? ==> |result| == |data| - n + 1
    ensures err.None? ==> forall i :: 0 <= i < |result| ==> result[i] == WindowAvg(data, i, n)
  {
    err := ValidateParameters(|data|, n);
    if err != None {
      return [], err;
    }

    var sum := 0.0;
    for j := 0 to n
      invariant sum == Sum(data[..j])
    {
      SumSnoc(data[..j], data[j]);
      assert data[..j + 1] == data[..j] + [data[j]];
      sum := sum + data[j];
    }
    SlidingSumIsWindowSum(data, n, 0);
    result := [sum / (n as real)];

    var i := 1;
    while i + n <= |data|
      invariant 1 <= i <= |data| - n + 1
      invariant sum == SlidingSum(data, n, i - 1)
      invariant |result| == i
      invariant forall k :: 0 <= k < i ==> result[k] == WindowAvg(data, k, n)
    {
      sum := sum - data[i - 1] + data[i + n - 1];
      SlidingSumIsWindowSum(data, n, i);
      result := result + [sum / (n as real)];
      i := i + 1;
    }
  }

  /** A series on which the code and the comments disagree: with n = 2 the code
      yields 1.5 and then (1.5 + 4) / 2, while the windows average to 1.5, 2.5
      and 3.5. */
  lemma AsWrittenDiffersExample()
    ensures CodeAverages([1.0, 2.0, 3.0, 4.0], 2, 2) == [1.5, 2.75]
    ensures Windows([1.0, 2.0, 3.0, 4.0], 2) == [1.5, 2.5, 3.5]
  {
    var data := [1.0, 2.0, 3.0, 4.0];
    assert data[0..2] == [1.0, 2.0] && data[1..3] == [2.0, 3.0] && data[2..4] == [3.0, 4.0];
    assert Sum([1.0, 2.0]) == 3.0 by {
      assert [1.0, 2.0][..1] == [1.0];
      assert [1.0][..0] == [];
    }
    assert Sum([2.0, 3.0]) == 5.0 by {
      assert [2.0, 3.0][..1] == [2.0];
      assert [2.0][..0] == [];
    }
    assert Sum([3.0, 4.0]) == 7.0 by {
      assert [3.0, 4.0][..1] == [3.0];
      assert [3.0][..0] == [];
    }
  }

  /** On every input the code accepts, its result equals the window averages
      only for a single point, because the numbers of entries differ: the code
      yields n entries where there are |data| - n + 1 windows. */
  lemma AsWrittenMatchesWindowsIff(data: seq<real>, n: nat)
    requires ValidateParameters(|data|, n) == None && StaysInBounds(|data|, n)
    ensures CodeAverages(data, n, n) == Windows(data, n) <==> |data| == 1
  {
  }

  /** On every input long enough for a second entry, that entry is the window
      average exactly when the previous average plus `data[n + 1]` happens to
      equal the sliding sum of the comments. */
  lemma AsWrittenSecondEntryIff(data: seq<real>, n: nat)
    requires 2 <= n && 2 * n <= |data|
    ensures CodeAverages(data, n, n)[1] == WindowAvg(data, 1, n)
        <==> Sum(data[..n]) / (n as real) + data[n + 1] == Sum(data[..n]) - data[0] + data[n]
  {
    CodeAveragesStep(data, n, n, 1);
    SumSlide(data, 1, n);
    assert data[..n] == data[0..n];
  }
}
