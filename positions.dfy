/** The position state machine over {-1, 0, +1}: backtester.py `_z_score_strategy` (lines 36-48)
    and its copy in vector_backtest.py `_z_score_strategy_position` (lines 41-53). */
module Positions {
  import opened Wrappers
  import opened Stats
  import opened Rolling
  import opened Signals

  predicate IsPosition(p: int)
  {
    -1 <= p <= 1
  }

  /** One bar of the machine: a long entry wins, otherwise a short entry, otherwise the previous
      position is carried; then the exit condition is re-checked on the result, which may cancel an
      entry taken on the same bar. */
  function Step(prev: int, f: Flags): (next: int)
    ensures IsPosition(prev) ==> IsPosition(next)
    ensures next == 1 ==> !f.longExit
    ensures next == -1 ==> !f.shortExit
    ensures f.longEntry ==> next == (if f.longExit then 0 else 1)
    ensures !f.longEntry && f.shortEntry ==> next == (if f.shortExit then 0 else -1)
    ensures !f.longEntry && !f.shortEntry ==>
      next == (if (prev == 1 && f.longExit) || (prev == -1 && f.shortExit) then 0 else prev)
    ensures next != 0 && next != prev ==> f.longEntry || f.shortEntry
  {
    var entered := if f.longEntry then 1 else if f.shortEntry then -1 else prev;
    if (entered == 1 && f.longExit) || (entered == -1 && f.shortExit) then 0 else entered
  }

  /** The position series of one sequential pass: flat at bar 0, then one `Step` per bar. */
  function Run(flags: seq<Flags>): (position: seq<int>)
    ensures |position| == |flags|
    ensures |flags| > 0 ==> position[0] == 0
    ensures forall i :: 0 <= i < |position| ==> IsPosition(position[i])
    ensures forall i :: 1 <= i < |position| ==> position[i] == Step(position[i - 1], flags[i])
  {
    if |flags| <= 1 then seq(|flags|, _ => 0)
    else
      var prev := Run(flags[..|flags| - 1]);
      prev + [Step(prev[|prev| - 1], flags[|flags| - 1])]
  }

  /** The position of a bar depends only on the flags up to that bar. */
  lemma {:induction false} RunPrefix(flags: seq<Flags>, k: nat)
    requires k <= |flags|
    ensures Run(flags[..k]) == Run(flags)[..k]
  {
    var a, b := Run(flags[..k]), Run(flags)[..k];
    forall i | 0 <= i < k
      ensures a[i] == b[i]
    {
      RunPrefixAt(flags, k, i);
    }
  }

  lemma {:induction false} RunPrefixAt(flags: seq<Flags>, k: nat, i: nat)
    requires i < k <= |flags|
    ensures Run(flags[..k])[i] == Run(flags)[i]
    decreases i
  {
    if i > 0 {
      RunPrefixAt(flags, k, i - 1);
      assert flags[..k][i] == flags[i];
    }
  }

  /** The position loop shared by both backtesters: a zero array filled from bar 1 on, each bar
      reading the previous bar and overwriting the current one. */
  method FillPositions(flags: seq<Flags>) returns (position: array<int>)
    ensures fresh(position)
    ensures position[..] == Run(flags)
  {
    ghost var spec := Run(flags);
    var n := |flags|;
    position := new int[n](_ => 0);
    var i := 1;
    while i < n
      invariant 1 <= i && (n == 0 || i <= n)
      invariant forall j :: 0 <= j < i && j < n ==> position[j] == spec[j]
    {
      if flags[i].longEntry {
        position[i] := 1;
      } else if flags[i].shortEntry {
        position[i] := -1;
      } else {
        position[i] := position[i - 1];
      }
      if (position[i] == 1 && flags[i].longExit) || (position[i] == -1 && flags[i].shortExit) {
        position[i] := 0;
      }
      assert position[i] == Step(position[i - 1], flags[i]);
      i := i + 1;
    }
  }

  /** backtester.py `_z_score_strategy`: polars' rolling mean and rolling sample deviation of the
      factor, the z-score column, its four flags read with polars' ordering of NaN, and the position
      loop. A window below one is refused by the rolling functions; a window longer than the series
      leaves every z-score null. */
  method ZScoreStrategy(factor: seq<real>, w: int, multiplier: real)
    returns (r: Result<seq<int>, RollingError>)
    ensures r.Err? <==> w < 1
    ensures r.Ok? ==> r.value == Run(ScoreFlags(Scores(factor, w), multiplier, Polars))
  {
    if w < 1 {
      return Err(WindowOutOfRange);
    }
    var pos := FillPositions(ScoreFlags(Scores(factor, w), multiplier, Polars));
    return Ok(pos[..]);
  }

  /** vector_backtest.py `_z_score_strategy_position`: numpy's rolling mean and rolling standard
      deviation of the factor, the elementwise z-score, the four flags read with numpy's NaN
      comparisons, and the position loop. */
  method ZScoreStrategyPosition(factor: seq<real>, w: int, threshold: real)
    returns (r: Result<array<int>, RollingError>)
    ensures r.Err? <==> !(1 <= w <= |factor|)
    ensures r.Ok? ==> fresh(r.value) && r.value[..] == Run(ScoreFlags(Scores(factor, w), threshold, Numpy))
  {
    var mean := RollingMean(factor, w);
    if mean.Err? {
      return Err(mean.error);
    }
    var variance := RollingVariance(factor, w);
    NumpyFlagsOfElementwise(factor, w, mean.value, threshold);
    var scores := ZScoreColumn(factor, mean.value, variance);
    var position := FillPositions(ScoreFlags(scores, threshold, Numpy));
    return Ok(position);
  }

  /** A float z-score column that holds the real z-scores of the factor series (null, NaN and
      ratios in the same places) drives the loop to the positions of the exact scores. */
  lemma StrategyOnZColumn(factor: seq<real>, w: int, m: real, z: seq<ZValue>, lib: Library)
    requires w >= 1
    requires Represents(z, Scores(factor, w))
    ensures Run(ZFlags(z, m, lib)) == Run(ScoreFlags(Scores(factor, w), m, lib))
  {
    ColumnFlagsAgree(z, Scores(factor, w), m, lib);
  }

  /** For a window that fits the series (the only windows the numpy backtester accepts), when no
      full window of the factor is flat, no z-score is NaN, and the polars backtester and the numpy
      backtester produce the same positions. */
  lemma BacktestersAgreeWithoutFlatWindow(factor: seq<real>, w: int, m: real)
    requires 1 <= w <= |factor|
    ensures (forall i :: 2 <= w && w - 1 <= i < |factor| ==> !Constant(Trailing(factor, i, w))) ==>
      Run(ScoreFlags(Scores(factor, w), m, Polars)) == Run(ScoreFlags(Scores(factor, w), m, Numpy))
  {
    if forall i :: 2 <= w && w - 1 <= i < |factor| ==> !Constant(Trailing(factor, i, w)) {
      var scores := Scores(factor, w);
      forall i | 0 <= i < |factor|
        ensures ScoreFlags(scores, m, Polars)[i] == ScoreFlags(scores, m, Numpy)[i]
      {
        ScoresNaNIff(factor, w, i);
        LibrariesDisagreeOnNaN(scores, m, i);
      }
      assert ScoreFlags(scores, m, Polars) == ScoreFlags(scores, m, Numpy);
    }
  }

  /** On a bar whose full window is flat the two backtesters part: polars orders the NaN z-score
      above every threshold and goes long, numpy raises no flag and carries the previous position. */
  lemma FlatWindowSplitsBacktesters(factor: seq<real>, w: int, m: real, i: int)
    requires 2 <= w && w - 1 <= i < |factor|
    requires Constant(Trailing(factor, i, w))
    ensures Run(ScoreFlags(Scores(factor, w), m, Polars))[i] == 1
    ensures Run(ScoreFlags(Scores(factor, w), m, Numpy))[i] == Run(ScoreFlags(Scores(factor, w), m, Numpy))[i - 1]
  {
    ScoresNaNIff(factor, w, i);
    var scores := Scores(factor, w);
    var polars, numpy := ScoreFlags(scores, m, Polars), ScoreFlags(scores, m, Numpy);
    assert polars[i] == NaNFlags(Polars);
    assert numpy[i] == NoFlags;
    assert Run(polars)[i] == Step(Run(polars)[i - 1], polars[i]);
    assert Run(numpy)[i] == Step(Run(numpy)[i - 1], numpy[i]);
  }

  /** A window longer than the series leaves every polars z-score null, so `backtester.py` stays
      flat on every bar, where the numpy backtester raises (`ZScoreStrategyPosition` returns an
      error for such a window). */
  lemma OversizedWindowStaysFlat(factor: seq<real>, w: int, m: real, i: int)
    requires w > |factor| && w >= 1
    requires 0 <= i < |factor|
    ensures Run(ScoreFlags(Scores(factor, w), m, Polars))[i] == 0
  {
    var flags := ScoreFlags(Scores(factor, w), m, Polars);
    forall j | 0 <= j < |factor| ensures flags[j] == NoFlags {
      assert Scores(factor, w)[j].Null?;
    }
    RunStaysFlat(flags, i);
  }

  /** Two equal prices with a window of two: polars goes long on bar 1, numpy stays flat. */
  lemma BacktestersDivergeExample()
    ensures Run(ScoreFlags(Scores([0.0, 0.0], 2), 1.0, Polars)) == [0, 1]
    ensures Run(ScoreFlags(Scores([0.0, 0.0], 2), 1.0, Numpy)) == [0, 0]
  {
    FlatWindowSplitsBacktesters([0.0, 0.0], 2, 1.0, 1);
  }

  /** Bar by bar, in terms of the z-score column: a null carries the position; a NaN goes long
      under polars and carries under numpy; a long entry `z > m` goes long unless `z <= 0` cancels
      it; otherwise a short entry `z < -m` goes short unless `z >= 0` cancels it; otherwise the
      position is carried, then closed by its exit. */
  lemma RunOnZScores(z: seq<ZValue>, m: real, lib: Library, i: int)
    requires 1 <= i < |z|
    ensures var p := Run(ZFlags(z, m, lib));
      && (z[i].Null? ==> p[i] == p[i - 1])
      && (z[i].NaN? ==> p[i] == (if lib == Polars then 1 else p[i - 1]))
      && (z[i].Num? && z[i].value > m ==> p[i] == (if z[i].value <= 0.0 then 0 else 1))
      && (z[i].Num? && !(z[i].value > m) && z[i].value < -m ==> p[i] == (if z[i].value >= 0.0 then 0 else -1))
      && (z[i].Num? && !(z[i].value > m) && !(z[i].value < -m) ==>
            p[i] == (if (p[i - 1] == 1 && z[i].value <= 0.0) || (p[i - 1] == -1 && z[i].value >= 0.0) then 0 else p[i - 1]))
  {
    var flags := ZFlags(z, m, lib);
    assert flags[i] == FlagsOf(z[i], m, lib);
    assert Run(flags)[i] == Step(Run(flags)[i - 1], flags[i]);
  }

  /** After the exit re-check a long position never stands on a bar with `z <= 0` and a short one
      never on a bar with `z >= 0`. */
  lemma NoPositionAgainstExit(z: seq<ZValue>, m: real, lib: Library, i: int)
    requires 0 <= i < |z| && z[i].Num?
    ensures Run(ZFlags(z, m, lib))[i] == 1 ==> z[i].value > 0.0
    ensures Run(ZFlags(z, m, lib))[i] == -1 ==> z[i].value < 0.0
  {
    var flags := ZFlags(z, m, lib);
    assert flags[i] == FlagsOf(z[i], m, lib);
    if i > 0 {
      assert Run(flags)[i] == Step(Run(flags)[i - 1], flags[i]);
    }
  }

  /** An exit cancels an entry taken on the same bar only when the multiplier is negative: for
      `m >= 0` a long entry `z > m` implies `z > 0`, a short entry `z < -m` implies `z < 0`, and a
      NaN that enters long raises no long exit. */
  lemma SameBarCancelNeedsNegativeMultiplier(prev: int, z: ZValue, m: real, lib: Library)
    requires FlagsOf(z, m, lib).longEntry || FlagsOf(z, m, lib).shortEntry
    requires Step(prev, FlagsOf(z, m, lib)) == 0
    ensures m < 0.0
  {
  }

  /** With `m = -1` and `z = -0.5` the long entry fires and is cancelled on the same bar. */
  lemma SameBarCancelExample()
    ensures FlagsOf(Num(-0.5), -1.0, Polars).longEntry && Step(0, FlagsOf(Num(-0.5), -1.0, Polars)) == 0
  {
  }

  /** Flags that never fire keep the machine flat from bar 0 on. */
  lemma {:induction false} RunStaysFlat(flags: seq<Flags>, i: int)
    requires 0 <= i < |flags|
    requires forall j :: 0 <= j < |flags| ==> flags[j] == NoFlags
    ensures Run(flags)[i] == 0
  {
    if i > 0 {
      RunStaysFlat(flags, i - 1);
    }
  }

  /** Every window of a constant factor series is flat. */
  lemma ConstantWindows(factor: seq<real>, w: int, i: int)
    requires Constant(factor)
    requires 1 <= w && w - 1 <= i < |factor|
    ensures Constant(Trailing(factor, i, w))
  {
    var win := Trailing(factor, i, w);
    assert forall a, b :: 0 <= a < |win| && 0 <= b < |win| ==> win[a] == factor[i - w + 1 + a] == factor[i - w + 1 + b] == win[b];
  }

  /** numpy: a constant factor series gives only NaN z-scores, which raise no flag, so the
      vectorised backtester never opens a position. */
  lemma FlatFactorStaysFlat(factor: seq<real>, w: int, m: real)
    requires w >= 1
    requires Constant(factor)
    ensures forall i :: 0 <= i < |factor| ==> Run(ScoreFlags(Scores(factor, w), m, Numpy))[i] == 0
  {
    var scores := Scores(factor, w);
    var flags := ScoreFlags(scores, m, Numpy);
    forall i | 0 <= i < |factor| ensures flags[i] == NoFlags {
      if w >= 2 && i >= w - 1 {
        ConstantWindows(factor, w, i);
        ScoresNaNIff(factor, w, i);
      }
    }
    forall i | 0 <= i < |factor| ensures Run(flags)[i] == 0 {
      RunStaysFlat(flags, i);
    }
  }

  /** polars: on a constant factor series every z-score of a full window of two or more values is
      NaN, which polars reads as a long entry, so the backtester is flat until the first full window
      and long from then on; a window of one leaves every z-score null and the backtester flat. */
  lemma {:induction false} FlatFactorGoesLong(factor: seq<real>, w: int, m: real, i: int)
    requires w >= 1
    requires Constant(factor)
    requires 0 <= i < |factor|
    ensures Run(ScoreFlags(Scores(factor, w), m, Polars))[i] == (if 2 <= w <= i + 1 then 1 else 0)
  {
    var scores := Scores(factor, w);
    var flags := ScoreFlags(scores, m, Polars);
    if 2 <= w <= i + 1 {
      ConstantWindows(factor, w, i);
      ScoresNaNIff(factor, w, i);
      assert flags[i] == NaNFlags(Polars);
      assert Run(flags)[i] == Step(Run(flags)[i - 1], flags[i]);
    } else if i > 0 {
      FlatFactorGoesLong(factor, w, m, i - 1);
      assert flags[i] == NoFlags;
    }
  }
}
