/** Trailing-window statistics over the factor series (vector_backtest.py `_compute_rolling_mean`,
    `_compute_rolling_std`). */
module Rolling {
  import opened Wrappers
  import opened Stats

  /** numpy rejects the window: `np.ones` of a negative size, `np.convolve` on an empty operand, or
      a convolution result that does not fit the slice `rolling_array[window_size - 1:]`. */
  datatype RollingError = WindowOutOfRange

  /** The trailing window of width `w` that ends at index `i`. */
  function Trailing(xs: seq<real>, i: int, w: int): (win: seq<real>)
    requires 1 <= w && w - 1 <= i < |xs|
    ensures |win| == w && win[w - 1] == xs[i]
  {
    xs[i - w + 1 .. i + 1]
  }

  /** Rolling mean: a column of the input's length, missing (NaN) for the first `w - 1` entries,
      and at every later index the mean of the trailing window ending there. The valid part of the
      convolution with the flat kernel `1/w` is written into the preallocated NaN column. */
  method RollingMean(xs: seq<real>, w: int) returns (r: Result<seq<Option<real>>, RollingError>)
    ensures r.Err? <==> !(1 <= w <= |xs|)
    ensures r.Ok? ==> |r.value| == |xs|
    ensures r.Ok? ==> forall i :: 0 <= i < w - 1 ==> r.value[i] == None
    ensures r.Ok? ==> forall i :: w - 1 <= i < |xs| ==> r.value[i] == Some(Mean(Trailing(xs, i, w)))
  {
    if !(1 <= w <= |xs|) {
      return Err(WindowOutOfRange);
    }
    var n := |xs|;
    var rolling := new Option<real>[n](_ => None);
    // entry k of the 'valid' convolution averages xs[k .. k + w] and lands at index w - 1 + k
    var k := 0;
    while k < n - w + 1
      invariant 0 <= k <= n - w + 1
      invariant forall i :: 0 <= i < w - 1 ==> rolling[i] == None
      invariant forall i :: w - 1 <= i < w - 1 + k ==> rolling[i] == Some(Mean(Trailing(xs, i, w)))
    {
      rolling[w - 1 + k] := Some(Mean(xs[k .. k + w]));
      k := k + 1;
    }
    return Ok(rolling[..]);
  }

  /** numpy's `np.std(window, ddof=1)`, squared: the sample variance of a window, NaN (missing) for
      a window of fewer than two values. */
  function WindowVariance(win: seq<real>): Option<real>
  {
    if |win| >= 2 then Some(Variance(win)) else None
  }

  /** Number of leading NaN entries of the rolling standard deviation: `[nan] * (w - 1)`. */
  function Padding(w: nat): nat
  {
    if w == 0 then 0 else w - 1
  }

  /** Number of windows the comprehension visits: `range(len(array) - w + 1)`. */
  function WindowCount(n: nat, w: nat): nat
  {
    if n + 1 >= w then n + 1 - w else 0
  }

  /** Rolling standard deviation, kept squared (sample variance) because the square root is not
      modelled: `w - 1` NaN entries followed by one entry per window `xs[k .. k + w]`. */
  function RollingVariance(xs: seq<real>, w: nat): (r: seq<Option<real>>)
    ensures |r| == Padding(w) + WindowCount(|xs|, w)
  {
    seq(Padding(w), _ => None)
      + seq(WindowCount(|xs|, w), k requires 0 <= k < WindowCount(|xs|, w) => WindowVariance(xs[k .. k + w]))
  }

  /** For a window that fits, the rolling variance has the input's length, is missing for the first
      `w - 1` entries, and at every later index covers the same trailing window as the rolling mean. */
  lemma RollingVarianceAligned(xs: seq<real>, w: nat)
    requires 1 <= w <= |xs|
    ensures |RollingVariance(xs, w)| == |xs|
    ensures forall i :: 0 <= i < w - 1 ==> RollingVariance(xs, w)[i] == None
    ensures forall i :: w - 1 <= i < |xs| ==> RollingVariance(xs, w)[i] == WindowVariance(Trailing(xs, i, w))
  {
    var r := RollingVariance(xs, w);
    forall i | w - 1 <= i < |xs|
      ensures r[i] == WindowVariance(Trailing(xs, i, w))
    {
      var k := i - (w - 1);
      assert r[i] == WindowVariance(xs[k .. k + w]);
    }
  }

  /** A window longer than the series produces no value at all: only the `w - 1` NaN padding, which
      is then longer than the series itself. */
  lemma RollingVarianceOversized(xs: seq<real>, w: nat)
    requires w > |xs|
    ensures |RollingVariance(xs, w)| == w - 1
    ensures forall i :: 0 <= i < w - 1 ==> RollingVariance(xs, w)[i] == None
  {
  }
}
