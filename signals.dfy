/** From the factor series to per-bar trading flags (backtester.py lines 22-34, vector_backtest.py
    lines 31-39). A z-score is `(factor - rolling mean) / rolling std`; since the square root is not
    modelled, a present z-score is kept as its numerator and the squared denominator, and every
    comparison of the z-score is decided exactly on those. */
module Signals {
  import opened Wrappers
  import opened Stats
  import opened Rolling

  /** The four boolean columns derived from the z-score. */
  datatype Flags = Flags(longEntry: bool, longExit: bool, shortEntry: bool, shortExit: bool)

  const NoFlags := Flags(false, false, false, false)

  /** The two column libraries order NaN differently. numpy compares NaN false against every
      number. polars orders NaN above every number, so `NaN > m` and `NaN >= 0` hold while
      `NaN <= 0` and `NaN < -m` do not. */
  datatype Library = Polars | Numpy

  /** A float cell of a z-score column: polars' null, NaN, or a number. */
  datatype ZValue = Null | NaN | Num(value: real)

  /** The flags a NaN z-score raises: a long entry and a short exit under polars, none under numpy. */
  function NaNFlags(lib: Library): (f: Flags)
    ensures lib == Numpy <==> f == NoFlags
    ensures lib == Polars ==> f.longEntry && !f.longExit && !f.shortEntry && f.shortExit
  {
    match lib
    case Polars => Flags(true, false, false, true)
    case Numpy => NoFlags
  }

  /** Why these are NaN's flags: polars reads a NaN exactly like a number above `m`, above `-m`
      and above 0, and numpy reads it as no number can be read, since every number is `<= 0` or
      `>= 0` and so raises an exit flag. */
  lemma NaNFlagsMeaning(m: real, v: real)
    ensures v > m && v > -m && v > 0.0 ==> NaNFlags(Polars) == FlagsOf(Num(v), m, Polars)
    ensures NaNFlags(Numpy) != FlagsOf(Num(v), m, Numpy)
  {
  }

  /** Flags of one bar from a z-score column entry: `z > m`, `z <= 0`, `z < -m`, `z >= 0`. A null
      compares to null, which the position loop reads as false. */
  function FlagsOf(z: ZValue, m: real, lib: Library): (f: Flags)
    ensures z.Null? ==> f == NoFlags
    ensures z.NaN? ==> f == NaNFlags(lib)
    ensures z.Num? ==> (f.longExit || f.shortExit) && (m >= 0.0 ==> !(f.longEntry && f.shortEntry))
  {
    match z
    case Null => NoFlags
    case NaN => NaNFlags(lib)
    case Num(v) => Flags(v > m, v <= 0.0, v < -m, v >= 0.0)
  }

  function ZFlags(z: seq<ZValue>, m: real, lib: Library): (flags: seq<Flags>)
    ensures |flags| == |z|
  {
    seq(|z|, i requires 0 <= i < |z| => FlagsOf(z[i], m, lib))
  }

  /** An exact z-score: polars' null, NaN (0/0), an infinity (a non-zero numerator over a zero
      standard deviation), or `dev / sqrt(variance)` with `variance > 0`. */
  datatype Score = Null | NaN | PosInf | NegInf | Finite(dev: real, variance: real)

  /** numpy's `(x - mean) / std` with IEEE semantics, the standard deviation given by its square; a
      NaN (`None`) operand gives NaN. */
  function ZScoreOf(x: real, mean: Option<real>, variance: Option<real>): Score
  {
    if mean.None? || variance.None? || variance.value < 0.0 then Score.NaN
    else if variance.value == 0.0 then
      (if x == mean.value then Score.NaN else if x > mean.value then PosInf else NegInf)
    else Finite(x - mean.value, variance.value)
  }

  /** `dev / sqrt(variance) > m`, decided without the square root. */
  predicate Above(dev: real, variance: real, m: real)
  {
    if m >= 0.0 then dev > 0.0 && Sq(dev) > Mul(Sq(m), variance)
    else dev >= 0.0 || Sq(dev) < Mul(Sq(m), variance)
  }

  /** Flags of one bar from an exact z-score; `z < -m` is `-z > m`. */
  function FlagsOfScore(s: Score, m: real, lib: Library): Flags
  {
    match s
    case Null => NoFlags
    case NaN => NaNFlags(lib)
    case PosInf => Flags(true, false, false, true)
    case NegInf => Flags(false, true, true, false)
    case Finite(dev, variance) => Flags(Above(dev, variance, m), dev <= 0.0, Above(-dev, variance, m), dev >= 0.0)
  }

  function ScoreFlags(scores: seq<Score>, m: real, lib: Library): (flags: seq<Flags>)
    ensures |flags| == |scores|
  {
    seq(|scores|, i requires 0 <= i < |scores| => FlagsOfScore(scores[i], m, lib))
  }

  /** The two libraries raise different flags on a bar exactly when its z-score is NaN. */
  lemma LibrariesDisagreeOnNaN(scores: seq<Score>, m: real, i: int)
    requires 0 <= i < |scores|
    ensures ScoreFlags(scores, m, Polars)[i] != ScoreFlags(scores, m, Numpy)[i] <==> scores[i].NaN?
  {
    assert ScoreFlags(scores, m, Polars)[i] == FlagsOfScore(scores[i], m, Polars);
    assert ScoreFlags(scores, m, Numpy)[i] == FlagsOfScore(scores[i], m, Numpy);
  }

  /** `z` is the real number `dev / sqrt(variance)`: it has the sign of `dev` and `z^2 * variance == dev^2`. */
  predicate IsRatio(z: real, dev: real, variance: real)
  {
    variance > 0.0 && Mul(Sq(z), variance) == Sq(dev) && (z > 0.0 <==> dev > 0.0) && (z < 0.0 <==> dev < 0.0)
  }

  /** The squared comparison decides `z > m` correctly. */
  lemma AboveIff(z: real, dev: real, variance: real, m: real)
    requires IsRatio(z, dev, variance)
    ensures Above(dev, variance, m) <==> z > m
  {
    if m >= 0.0 {
      if z > 0.0 {
        SqMonotone(z, m);
        MulScale(Sq(z), Sq(m), variance);
      }
    } else {
      if z < 0.0 {
        SqNegated(z);
        SqNegated(m);
        SqMonotone(-m, -z);
        MulScale(Sq(z), Sq(m), variance);
      }
    }
  }

  /** The two representations of a present z-score raise the same four flags. */
  lemma FlagsAgree(z: real, dev: real, variance: real, m: real, lib: Library)
    requires IsRatio(z, dev, variance)
    ensures FlagsOfScore(Finite(dev, variance), m, lib) == FlagsOf(Num(z), m, lib)
  {
    AboveIff(z, dev, variance, m);
    SqNegated(z);
    SqNegated(dev);
    AboveIff(-z, -dev, variance, m);
  }

  /** A float z-score column represents a score column: null where the score is null, NaN where it
      is NaN, the real ratio where it is finite (the scores of a factor series hold no infinities). */
  predicate Represents(z: seq<ZValue>, scores: seq<Score>)
  {
    |z| == |scores| &&
    forall i :: 0 <= i < |z| ==>
      match scores[i]
      case Null => z[i].Null?
      case NaN => z[i].NaN?
      case Finite(dev, variance) => z[i].Num? && IsRatio(z[i].value, dev, variance)
      case _ => false
  }

  lemma ColumnFlagsAgree(z: seq<ZValue>, scores: seq<Score>, m: real, lib: Library)
    requires Represents(z, scores)
    ensures ZFlags(z, m, lib) == ScoreFlags(scores, m, lib)
  {
    forall i | 0 <= i < |z|
      ensures ZFlags(z, m, lib)[i] == ScoreFlags(scores, m, lib)[i]
    {
      if scores[i].Finite? {
        FlagsAgree(z[i].value, scores[i].dev, scores[i].variance, m, lib);
      }
    }
  }

  /** Z-score of the last value of a full window against that window's mean and sample variance:
      NaN (0/0) on a flat window. */
  function WindowScore(win: seq<real>): Score
    requires |win| >= 2
  {
    var variance := Variance(win);
    if variance == 0.0 then Score.NaN else Finite(win[|win| - 1] - Mean(win), variance)
  }

  /** The z-score column of a factor series for window `w`, as polars computes it
      (backtester.py:22-24): null until the first full window and, for a window of one value, on
      every row (there is no sample deviation of one value); NaN on a flat window (0/0); elsewhere
      the finite score of the trailing window. */
  function Scores(xs: seq<real>, w: int): (scores: seq<Score>)
    requires w >= 1
    ensures |scores| == |xs|
    ensures forall i :: 0 <= i < |xs| ==> !scores[i].PosInf? && !scores[i].NegInf?
  {
    seq(|xs|, i requires 0 <= i < |xs| =>
      if w >= 2 && i >= w - 1 then WindowScore(Trailing(xs, i, w)) else Score.Null)
  }

  /** The z-score is NaN exactly on a full window of at least two equal values. */
  lemma ScoresNaNIff(xs: seq<real>, w: int, i: int)
    requires w >= 1 && 0 <= i < |xs|
    ensures Scores(xs, w)[i].NaN? <==> 2 <= w && w - 1 <= i && Constant(Trailing(xs, i, w))
  {
    if 2 <= w && w - 1 <= i {
      VarianceZeroIff(Trailing(xs, i, w));
    }
  }

  /** On a window with zero variance the value equals the mean, so the division is 0/0 (NaN) and
      never an infinity. */
  lemma FlatWindowHasNoDeviation(xs: seq<real>, i: int, w: int)
    requires 2 <= w && w - 1 <= i < |xs|
    requires Variance(Trailing(xs, i, w)) == 0.0
    ensures xs[i] == Mean(Trailing(xs, i, w))
  {
    VarianceZeroIff(Trailing(xs, i, w));
  }

  /** numpy's `(factor - rolling_mean) / rolling_std`, elementwise over three aligned columns. */
  function ZScoreColumn(xs: seq<real>, mean: seq<Option<real>>, variance: seq<Option<real>>): (scores: seq<Score>)
    requires |mean| == |xs| && |variance| == |xs|
    ensures |scores| == |xs|
  {
    seq(|xs|, i requires 0 <= i < |xs| => ZScoreOf(xs[i], mean[i], variance[i]))
  }

  /** numpy has no null: where polars would give null, numpy's padding and its deviation of a single
      value are NaN. */
  function AsNumpy(s: Score): Score
  {
    if s.Null? then Score.NaN else s
  }

  /** Combining the rolling mean and rolling variance columns elementwise, as numpy does, yields
      the trailing-window z-scores with NaN in place of null: both columns are aligned on the same
      window. */
  lemma ElementwiseScores(xs: seq<real>, w: nat, mean: seq<Option<real>>)
    requires 1 <= w <= |xs| && |mean| == |xs|
    requires forall i :: 0 <= i < w - 1 ==> mean[i] == None
    requires forall i :: w - 1 <= i < |xs| ==> mean[i] == Some(Mean(Trailing(xs, i, w)))
    ensures |RollingVariance(xs, w)| == |xs|
    ensures forall i :: 0 <= i < |xs| ==> ZScoreColumn(xs, mean, RollingVariance(xs, w))[i] == AsNumpy(Scores(xs, w)[i])
  {
    RollingVarianceAligned(xs, w);
    var variance := RollingVariance(xs, w);
    forall i | 0 <= i < |xs|
      ensures ZScoreColumn(xs, mean, variance)[i] == AsNumpy(Scores(xs, w)[i])
    {
      if w >= 2 && i >= w - 1 {
        var win := Trailing(xs, i, w);
        VarianceNonNegative(win);
        if Variance(win) == 0.0 {
          FlatWindowHasNoDeviation(xs, i, w);
        }
      }
    }
  }

  /** numpy raises the same flags whether a cell is null or NaN, so its flags of the elementwise
      column are its flags of the trailing-window scores. */
  lemma NumpyFlagsOfElementwise(xs: seq<real>, w: nat, mean: seq<Option<real>>, m: real)
    requires 1 <= w <= |xs| && |mean| == |xs|
    requires forall i :: 0 <= i < w - 1 ==> mean[i] == None
    requires forall i :: w - 1 <= i < |xs| ==> mean[i] == Some(Mean(Trailing(xs, i, w)))
    ensures |RollingVariance(xs, w)| == |xs|
    ensures ScoreFlags(ZScoreColumn(xs, mean, RollingVariance(xs, w)), m, Numpy) == ScoreFlags(Scores(xs, w), m, Numpy)
  {
    ElementwiseScores(xs, w, mean);
    var numpy := ZScoreColumn(xs, mean, RollingVariance(xs, w));
    forall i | 0 <= i < |xs|
      ensures ScoreFlags(numpy, m, Numpy)[i] == ScoreFlags(Scores(xs, w), m, Numpy)[i]
    {
      assert numpy[i] == AsNumpy(Scores(xs, w)[i]);
    }
  }
}
