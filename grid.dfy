/** Parameter search: every (window, multiplier) pair is scored and the scores are laid out as a
    matrix with one row per multiplier and one column per window. */
module Grid {
  import opened Wrappers
  import opened Signals
  import opened Positions
  import opened Accounting
  import opened Metrics

  /** A polars rolling window must hold at least one row. */
  type Window = w: int | w >= 1 witness 1

  /** The pairs of one multiplier, one per window, in window order. */
  function Row<W, M>(windows: seq<W>, m: M): (row: seq<(W, M)>)
    ensures |row| == |windows|
    ensures forall c :: 0 <= c < |windows| ==> row[c] == (windows[c], m)
  {
    seq(|windows|, c requires 0 <= c < |windows| => (windows[c], m))
  }

  /** The pair list, multiplier-major: all windows for the first multiplier, then the second… */
  function Pairs<W, M>(windows: seq<W>, multipliers: seq<M>): (ps: seq<(W, M)>)
  {
    if |multipliers| == 0 then []
    else Row(windows, multipliers[0]) + Pairs(windows, multipliers[1..])
  }

  /** Pair number `r * |windows| + c` is (window `c`, multiplier `r`), and there are exactly
      `|multipliers| * |windows|` pairs. */
  lemma {:induction false} PairsAt<W, M>(windows: seq<W>, multipliers: seq<M>, r: nat, c: nat)
    requires r < |multipliers| && c < |windows|
    ensures |Pairs(windows, multipliers)| == |multipliers| * |windows|
    ensures r * |windows| + c < |Pairs(windows, multipliers)|
    ensures Pairs(windows, multipliers)[r * |windows| + c] == (windows[c], multipliers[r])
  {
    if r == 0 {
      PairsLength(windows, multipliers);
    } else {
      PairsAt(windows, multipliers[1..], r - 1, c);
      PairsLength(windows, multipliers);
      RowOffset(r, |windows|);
    }
  }

  lemma {:induction false} PairsLength<W, M>(windows: seq<W>, multipliers: seq<M>)
    ensures |Pairs(windows, multipliers)| == |multipliers| * |windows|
  {
    if |multipliers| > 0 {
      PairsLength(windows, multipliers[1..]);
      RowOffset(|multipliers|, |windows|);
    }
  }

  /** `reshape(rows, cols)` of a flat list, row by row. */
  function Reshape<T>(values: seq<T>, rows: nat, cols: nat): (grid: seq<seq<T>>)
    requires |values| == rows * cols
    ensures |grid| == rows
    ensures forall r :: 0 <= r < rows ==> |grid[r]| == cols
  {
    if rows == 0 then []
    else
      RowOffset(rows, cols);
      [values[..cols]] + Reshape(values[cols..], rows - 1, cols)
  }

  /** Cell (r, c) of the reshaped matrix is value number `r * cols + c`. */
  lemma {:induction false} ReshapeAt<T>(values: seq<T>, rows: nat, cols: nat, r: nat, c: nat)
    requires |values| == rows * cols
    requires r < rows && c < cols
    ensures r * cols + c < |values|
    ensures Reshape(values, rows, cols)[r][c] == values[r * cols + c]
  {
    RowOffset(rows, cols);
    var rest := values[cols..];
    assert Reshape(values, rows, cols) == [values[..cols]] + Reshape(rest, rows - 1, cols);
    if r > 0 {
      ReshapeAt(rest, rows - 1, cols, r - 1, c);
      RowOffset(r, cols);
      assert values[r * cols + c] == rest[(r - 1) * cols + c];
    }
  }

  /** Row `r` of a row-major layout starts one row after row `r - 1`. */
  lemma RowOffset(r: nat, k: nat)
    requires r > 0
    ensures r * k == k + (r - 1) * k
    ensures (r - 1) * k >= 0
  {
  }

  /** `pool.map` over the pair list: one score per pair, in the pairs' order. */
  function MapPairs<W, M, S>(eval: (W, M) -> S, ps: seq<(W, M)>): (scores: seq<S>)
    ensures |scores| == |ps|
    ensures forall k :: 0 <= k < |ps| ==> scores[k] == eval(ps[k].0, ps[k].1)
  {
    seq(|ps|, k requires 0 <= k < |ps| => eval(ps[k].0, ps[k].1))
  }

  /** `zip(*results)` of an empty result list has nothing to unpack; a window below one makes the
      polars rolling functions raise in the worker, and `pool.map` re-raises it. */
  datatype GridError = NoParameters | InvalidWindow

  /** The score matrix of `optimize_params_and_plot_heatmap`, before plotting: one row per
      multiplier and one column per window, or an error when either list is empty. */
  function ScoreGrid<W, M, S>(windows: seq<W>, multipliers: seq<M>, eval: (W, M) -> S): (grid: Result<seq<seq<S>>, GridError>)
    ensures grid.Err? <==> |windows| == 0 || |multipliers| == 0
    ensures grid.Err? ==> grid.error == NoParameters
    ensures grid.Ok? ==> |grid.value| == |multipliers|
    ensures grid.Ok? ==> forall r :: 0 <= r < |multipliers| ==> |grid.value[r]| == |windows|
  {
    if |windows| == 0 || |multipliers| == 0 then Err(NoParameters)
    else
      PairsLength(windows, multipliers);
      Ok(Reshape(MapPairs(eval, Pairs(windows, multipliers)), |multipliers|, |windows|))
  }

  /** Row `r` and column `c` of the matrix hold the score of multiplier `r` with window `c`: the
      heatmap's labels match the cells. */
  lemma ScoreGridAt<W, M, S>(windows: seq<W>, multipliers: seq<M>, eval: (W, M) -> S, r: nat, c: nat)
    requires r < |multipliers| && c < |windows|
    ensures ScoreGrid(windows, multipliers, eval).Ok?
    ensures ScoreGrid(windows, multipliers, eval).value[r][c] == eval(windows[c], multipliers[r])
  {
    PairsAt(windows, multipliers, r, c);
    var ps := Pairs(windows, multipliers);
    ReshapeAt(MapPairs(eval, ps), |multipliers|, |windows|, r, c);
  }

  /** `_compute_sharpe_in_optimization`: the whole backtest for one parameter pair (z-scores from
      the polars rolling mean and deviation, the position loop, the ledger) scored by its Sharpe
      ratio over 365 trading days. */
  function SharpeForParams(obs: seq<Observation>, w: Window, m: real): (sharpe: SharpeRatio)
    ensures |obs| == 0 ==> sharpe == Zero
    ensures sharpe.Annualised? ==> sharpe.variance > 0.0 && sharpe.tradingDays == 365
  {
    var factor := seq(|obs|, i requires 0 <= i < |obs| => obs[i].factor);
    var position := Run(ScoreFlags(Scores(factor, w), m, Polars));
    var ledger := TradeStatistics(obs, position);
    ComputeSharpeRatio(ledger.timestamp, ledger.pnl, 365)
  }

  predicate ValidWindows(windows: seq<int>)
  {
    forall c :: 0 <= c < |windows| ==> windows[c] >= 1
  }

  function AsWindows(windows: seq<int>): (ws: seq<Window>)
    requires ValidWindows(windows)
    ensures |ws| == |windows|
    ensures forall c :: 0 <= c < |windows| ==> ws[c] == windows[c]
  {
    seq(|windows|, c requires 0 <= c < |windows| => windows[c] as Window)
  }

  /** The heatmap's matrix for a factor table: an error when either parameter list is empty, else
      an error when some window is below one, else one row per multiplier and one column per
      window. */
  function SharpeGrid(obs: seq<Observation>, windows: seq<int>, multipliers: seq<real>): (grid: Result<seq<seq<SharpeRatio>>, GridError>)
    ensures grid == Err(NoParameters) <==> |windows| == 0 || |multipliers| == 0
    ensures grid == Err(InvalidWindow) <==> |windows| > 0 && |multipliers| > 0 && !ValidWindows(windows)
    ensures grid.Ok? ==> |grid.value| == |multipliers|
    ensures grid.Ok? ==> forall r :: 0 <= r < |multipliers| ==> |grid.value[r]| == |windows|
  {
    if |windows| == 0 || |multipliers| == 0 then Err(NoParameters)
    else if !ValidWindows(windows) then Err(InvalidWindow)
    else ScoreGrid(AsWindows(windows), multipliers, (w, m) => SharpeForParams(obs, w, m))
  }

  /** Cell (r, c) is the Sharpe ratio of the backtest with window `c` and multiplier `r`. */
  lemma SharpeGridAt(obs: seq<Observation>, windows: seq<int>, multipliers: seq<real>, r: nat, c: nat)
    requires r < |multipliers| && c < |windows|
    requires ValidWindows(windows)
    ensures SharpeGrid(obs, windows, multipliers).Ok?
    ensures SharpeGrid(obs, windows, multipliers).value[r][c] == SharpeForParams(obs, windows[c] as Window, multipliers[r])
  {
    ScoreGridAt(AsWindows(windows), multipliers, (w, m) => SharpeForParams(obs, w, m), r, c);
  }
}
