# Simple moving average, modelled in Dafny

This project models the Go package `moving_average`. The package has one real operation, `Simple`. It takes a series of points ordered latest-first and a period `n`, and returns moving averages ordered latest-first. It reports one of two errors when the period is not strictly positive or when the series has fewer than `n` points. That check is done by `validateParameters`.

The model is split into three modules:

- `Series` (series.dfy) defines the sum of a series and the average of the window `data[i..i + n]`, with the lemmas that move a window by one point.
- `MovingAverage` (moving_average.dfy) models the code as written. It has the error sentinels as a datatype, `ValidateParameters`, and `Simple` as a method with the source's two nested loops and running variables. `CodeAverages` says what those loops compute. It also has lemmas on when the read `data[n + i]` stays inside the series.
- `SlidingWindow` (sliding_window.dfy) models the sliding-window update that the comments in `Simple` describe. It proves that the update agrees with brute-force window sums. It gives a corrected `SimpleCorrected` that returns one average per full window, and proves how the code as written differs from it.

Points are exact `real`s. Go's `uint` period is a `nat`, so "n < 1" becomes `n == 0`. A nil `error` is `None`, and the nil result slice returned on failure is the empty sequence. The arithmetic `n + i - 1` in the guard cannot wrap around: there `n >= 1`, `i >= 1`, and `n` is at most the length of a slice.

The code and the comments disagree about the update step. This model follows the code in `MovingAverage.Simple` and records the difference under "## Findings". One entry per full window, `len(data) - n + 1` in all, is what the source's own text intends. Line 13 names the "Simple Moving Average algorithm", and the guard at line 40 checks "if we have enough remaining points to add another entry".

## Model

| member | source | states |
|---|---|---|
| `MovingAverage.ValidateParameters` | moving_average.go:71-81 | The invalid-period error comes back exactly when `n == 0`, whatever the series length, because the period is checked first. The not-enough-data error comes back exactly when `1 <= n` and the series is shorter than `n`. No error comes back exactly when `1 <= n <= count`. |
| `MovingAverage.CodeAverages` | moving_average.go:24-57 | The first `count` outer iterations produce exactly `count` entries. The first entry is the average of the `n` latest points. |
| `MovingAverage.CodeAveragesStep` | moving_average.go:47-56 | Each entry `k >= 1` is the previous entry plus `data[n + k]`, divided by `n`, and that read is in range. Line 48 overwrites line 47's result, so the previous average is used and not a previous sum. Each entry becomes the previous average of the next step. |
| `MovingAverage.Simple` | moving_average.go:16-60 | If validation fails, it returns an empty result and exactly the validator's error. Otherwise it returns no error and exactly `n` entries, as `CodeAverages` gives them. The first entry is the average of `data[0..n]`, and the inner loop stops after exactly `n` points. It requires that a validated call never reads past the series: `n == 1` or `2n <= len(data)`. |
| `MovingAverage.AccessesInBoundsIff` | moving_average.go:41-48 | On validated parameters, every read `data[n + i]` for `1 <= i < n` is in range if and only if `n == 1` or `2n <= len(data)`. |
| `MovingAverage.BreakNeverFires` | moving_average.go:41-42 | Suppose every earlier iteration's read was in range. Then the guard `n + i - 1 > len(data)` is false, so the `break` never fires before an out-of-range read. Under `Simple`'s precondition the `break` is dead code. |
| `MovingAverage.BreakDeadInBounds` | moving_average.go:41-42 | Under `Simple`'s precondition, the guard `n + i - 1 > len(data)` is false in every iteration `1 <= i < n`, so the `break` is dead code. |
| `MovingAverage.PanickingIteration` | moving_average.go:41-48 | Suppose validation passes but `n >= 2` and `len(data) < 2n`. Then there is an iteration `1 <= i < n` whose read `data[n + i]` is out of range. The guard does not stop that iteration, and every earlier read was in range. |
| `SlidingWindow.SlidingSumIsWindowSum` | moving_average.go:27-48 | The comments' recurrence `sum_i = sum_(i-1) - data[i-1] + data[i+n-1]`, started from the sum of the `n` latest points, equals the brute-force sum of `data[i..i + n]` for every window. |
| `SlidingWindow.SimpleCorrected` | moving_average.go:16-60 | It runs the same validation, with the same errors and an empty result on failure. On success it returns exactly `len(data) - n + 1` entries, and entry `i` is the average of `data[i..i + n]`. It needs no precondition. |
| `SlidingWindow.AsWrittenDiffersExample` | moving_average.go:47-48 | For `data = [1, 2, 3, 4]` and `n = 2`, the code yields `[1.5, 2.75]`, while the window averages are `[1.5, 2.5, 3.5]`. |
| `SlidingWindow.AsWrittenMatchesWindowsIff` | moving_average.go:24 | On every input the code accepts without error or out-of-range read, its result equals the list of window averages if and only if the series has a single point. The numbers of entries already differ otherwise. |
| `SlidingWindow.AsWrittenSecondEntryIff` | moving_average.go:45-52 | Whenever `n >= 2` and `2n <= len(data)`, the code's second entry equals the second window's average if and only if the first average plus `data[n + 1]` equals the sliding sum `sum(data[0..n]) - data[0] + data[n]`. |

## Findings

| source | as written | input that shows it | evidently intended | confidence | as-written member | corrected member |
|---|---|---|---|---|---|---|
| moving_average.go:47-48 | Line 47 computes `previousAverage - data[i - 1]`, but line 48 starts again from `previousAverage` and overwrites that value. The next entry is `(previous average + data[n + i]) / n`. | `data = [1, 2, 3, 4]`, `n = 2`: the second entry is 2.75, but the window average is 2.5 | The next sum is the previous sum minus `data[i - 1]` plus `data[i + n - 1]` | high, not executed | `SlidingWindow.AsWrittenDiffersExample` | `SlidingWindow.SimpleCorrected` |
| moving_average.go:24 | The outer loop runs at most `n` times, so there are never more than `n` entries | `data = [1, 2, 3]`, `n = 1`: one entry, but there are three windows | One entry per full window, `len(data) - n + 1` in all | high, not executed | `SlidingWindow.AsWrittenMatchesWindowsIff` | `SlidingWindow.SimpleCorrected` |
| moving_average.go:41-48 | The guard `n + i - 1 > len(data)` lets `n + i == len(data)` and `n + i == len(data) + 1` through to the read `data[n + i]` | `data = [1, 2]`, `n = 2`: iteration 1 reads `data[3]`, which is out of range | Stop once no full window remains (`i + n > len(data)`) and read `data[i + n - 1]` | high, not executed | `MovingAverage.PanickingIteration` | `SlidingWindow.SimpleCorrected` |

## Left out

- `SimpleRev` (moving_average.go:65-69) is not modelled. It has no return on its success path, so it does not compile, and it has no algorithm.
- `Cumulative` and `Weighted` (moving_average.go:83-89) are not modelled. They are empty functions.
- `big.Float` precision and rounding are not modelled, and neither is the `float64` conversion of the divisor. Points are exact reals.
- Error identity through `errors.New` sentinels is not modelled. A two-constructor datatype stands for the two sentinels.
- The runtime panic of an out-of-range read is not modelled as an outcome. `MovingAverage.Simple` requires that it does not happen. `MovingAverage.AccessesInBoundsIff` and `MovingAverage.PanickingIteration` characterise the inputs where it would happen.
- Infinite and nil points are not modelled. `big.Float`'s `Add` at lines 37 and 48 panics on infinities of opposite sign and on a nil point. Its `Sub` at line 47 panics on infinities of the same sign, for example `data = [+Inf, +Inf, 1, 2]` with `n = 2`. These panics are lost, because every point here is a finite real.
- Slices of pointers are not modelled. Each point is a value, and nothing in the package aliases or mutates them.
