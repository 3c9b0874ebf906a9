/** Transaction costs, returns, PnL and cumulative PnL (backtester.py lines 53-98). Columns are
    nullable, as in polars: arithmetic on a null entry gives null. */
module Accounting {
  import opened Wrappers
  import opened Stats

  /** `self.TRANSACTION_COST = 0.06 / 100`. */
  const TransactionCost: real := 0.0006

  type Column = seq<Option<real>>

  /** One row of the input table. */
  datatype Observation = Observation(timestamp: int, price: real, factor: real)

  /** The table `_compute_trade_statistics` returns. */
  datatype TradeLedger = TradeLedger(
    timestamp: seq<int>,
    position: seq<int>,
    transCost: Column,
    periodReturns: Column,
    pnl: Column,
    strategyCumPnL: Column,
    benchmarkCumPnL: Column)

  function Abs(x: real): real
  {
    if x < 0.0 then -x else x
  }

  /** The position column, stored as floats. */
  function Lift(position: seq<int>): Column
  {
    seq(|position|, i requires 0 <= i < |position| => Some(position[i] as real))
  }

  /** `shift(1)`: every entry moves one row down and the first row becomes null. */
  function Shift(c: Column): (r: Column)
    ensures |r| == |c|
  {
    if |c| == 0 then [] else [None] + c[..|c| - 1]
  }

  lemma ShiftAt(c: Column, i: int)
    requires 0 <= i < |c|
    ensures Shift(c)[i] == if i == 0 then None else c[i - 1]
  {
  }

  function Sub(a: Column, b: Column): Column
    requires |a| == |b|
  {
    seq(|a|, i requires 0 <= i < |a| =>
      if a[i].Some? && b[i].Some? then Some(a[i].value - b[i].value) else None)
  }

  function Times(a: Column, b: Column): Column
    requires |a| == |b|
  {
    seq(|a|, i requires 0 <= i < |a| =>
      if a[i].Some? && b[i].Some? then Some(Mul(a[i].value, b[i].value)) else None)
  }

  function AbsScaled(a: Column, k: real): Column
  {
    seq(|a|, i requires 0 <= i < |a| => if a[i].Some? then Some(Mul(Abs(a[i].value), k)) else None)
  }

  /** `_compute_trans_cost`: `abs(position - position.shift(1)) * TRANSACTION_COST`. */
  function TransCost(position: seq<int>): (tc: Column)
    ensures |tc| == |position|
  {
    var p := Lift(position);
    AbsScaled(Sub(p, Shift(p)), TransactionCost)
  }

  /** The first bar has no previous position to compare with, so its cost is null; every later
      bar costs the size of the position change times the rate. */
  lemma TransCostAt(position: seq<int>, i: int)
    requires 0 <= i < |position|
    ensures TransCost(position)[i] ==
      if i == 0 then None else Some(Mul(Abs((position[i] - position[i - 1]) as real), TransactionCost))
  {
    var p := Lift(position);
    ShiftAt(p, i);
    var d := Sub(p, Shift(p));
    assert d[i] == if i == 0 then None else Some(position[i] as real - position[i - 1] as real);
  }

  /** `pct_change()`: `price[i] / price[i-1] - 1`, null on the first row. A zero previous price
      (an infinity or NaN in the source) is taken as missing. */
  function PctChange(price: seq<real>): (ret: Column)
    ensures |ret| == |price|
  {
    seq(|price|, i requires 0 <= i < |price| =>
      if i == 0 || price[i - 1] == 0.0 then None else Some(price[i] / price[i - 1] - 1.0))
  }

  /** A present return compounds the previous price into the current one; it is missing exactly
      on the first row and after a zero price. */
  lemma PctChangeRecoversPrice(price: seq<real>, i: int)
    requires 0 <= i < |price|
    ensures PctChange(price)[i].None? <==> i == 0 || price[i - 1] == 0.0
    ensures PctChange(price)[i].Some? ==> Mul(price[i - 1], PctChange(price)[i].value + 1.0) == price[i]
  {
    if i > 0 && price[i - 1] != 0.0 {
      assert PctChange(price)[i].value + 1.0 == price[i] / price[i - 1];
    }
  }

  /** `_compute_PnL`: `position.shift(1) * returns - trans_cost`. The return of bar `i` is earned by
      the position held going into the bar, `position[i-1]`; the cost of changing position at bar
      `i` is then subtracted. */
  function PnL(position: seq<int>, price: seq<real>): (pnl: Column)
    requires |position| == |price|
    ensures |pnl| == |price|
  {
    var p := Lift(position);
    Sub(Times(Shift(p), PctChange(price)), TransCost(position))
  }

  /** PnL is null on the first bar and wherever the return is null; otherwise it is the lagged
      position times the bar's return, less the bar's cost. */
  lemma PnLAt(position: seq<int>, price: seq<real>, i: int)
    requires |position| == |price| && 0 <= i < |price|
    ensures PnL(position, price)[i] ==
      if i == 0 || price[i - 1] == 0.0 then None
      else Some(Mul(position[i - 1] as real, price[i] / price[i - 1] - 1.0) - TransCost(position)[i].value)
  {
    TransCostAt(position, i);
    ShiftAt(Lift(position), i);
  }

  /** No lookahead: the PnL of bars `0 .. k-1` is fixed by the positions of those bars alone, so
      positions decided later never change it. */
  lemma PnLIsCausal(p1: seq<int>, p2: seq<int>, price: seq<real>, k: nat)
    requires |p1| == |p2| == |price| && k <= |price|
    requires p1[..k] == p2[..k]
    ensures PnL(p1, price)[..k] == PnL(p2, price)[..k]
  {
    forall i | 0 <= i < k
      ensures PnL(p1, price)[i] == PnL(p2, price)[i]
    {
      assert p1[i] == p1[..k][i];
      if i > 0 {
        assert p1[i - 1] == p1[..k][i - 1];
      }
      PnLAgreeAt(p1, p2, price, i);
    }
  }

  lemma PnLAgreeAt(p1: seq<int>, p2: seq<int>, price: seq<real>, i: int)
    requires |p1| == |p2| == |price| && 0 <= i < |price|
    requires p1[i] == p2[i] && (i > 0 ==> p1[i - 1] == p2[i - 1])
    ensures PnL(p1, price)[i] == PnL(p2, price)[i]
  {
    TransCostAt(p1, i);
    TransCostAt(p2, i);
    assert TransCost(p1)[i] == TransCost(p2)[i];
    PnLAt(p1, price, i);
    PnLAt(p2, price, i);
  }

  /** The gross PnL of bar `i` (before costs) reads only `position[i-1]`: two position series that
      agree at `i-1` earn the same there, whatever they hold at bar `i`. */
  lemma GrossPnLUsesLaggedPosition(p1: seq<int>, p2: seq<int>, price: seq<real>, i: int)
    requires |p1| == |p2| == |price| && 1 <= i < |price|
    requires p1[i - 1] == p2[i - 1]
    ensures PnL(p1, price)[i].Some? <==> PnL(p2, price)[i].Some?
    ensures PnL(p1, price)[i].Some? ==>
      PnL(p1, price)[i].value + TransCost(p1)[i].value == PnL(p2, price)[i].value + TransCost(p2)[i].value
  {
    PnLAt(p1, price, i);
    PnLAt(p2, price, i);
  }

  /** Transaction cost of a bar after the first is zero exactly when the position did not change. */
  lemma TransCostZeroIff(position: seq<int>, i: int)
    requires 1 <= i < |position|
    ensures TransCost(position)[i] == Some(0.0) <==> position[i] == position[i - 1]
  {
    TransCostAt(position, i);
    var d := Abs((position[i] - position[i - 1]) as real);
    if d != 0.0 {
      MulPositive(d, TransactionCost);
    }
  }

  lemma TransCostNonNegative(position: seq<int>, i: int)
    requires 1 <= i < |position|
    ensures TransCost(position)[i].Some? && TransCost(position)[i].value >= 0.0
  {
    TransCostAt(position, i);
    var d := Abs((position[i] - position[i - 1]) as real);
    if d != 0.0 {
      MulPositive(d, TransactionCost);
    }
  }

  /** Between positions in {-1, 0, 1} a bar costs 0, one or two times the rate. */
  lemma TransCostLevels(position: seq<int>, i: int)
    requires 1 <= i < |position|
    requires -1 <= position[i] <= 1 && -1 <= position[i - 1] <= 1
    ensures TransCost(position)[i].value in {0.0, TransactionCost, 2.0 * TransactionCost}
  {
    TransCostAt(position, i);
  }

  /** Sum of the present entries of a column. */
  function SumPresent(c: Column): real
  {
    if |c| == 0 then 0.0 else (if c[0].Some? then c[0].value else 0.0) + SumPresent(c[1..])
  }

  /** The running total continued from `acc`: a null entry stays null and adds nothing. */
  function CumSumFrom(c: Column, acc: real): (r: Column)
    ensures |r| == |c|
  {
    if |c| == 0 then []
    else if c[0].None? then [None] + CumSumFrom(c[1..], acc)
    else [Some(acc + c[0].value)] + CumSumFrom(c[1..], acc + c[0].value)
  }

  /** `cum_sum()`. */
  function CumSum(c: Column): (r: Column)
    ensures |r| == |c|
  {
    CumSumFrom(c, 0.0)
  }

  lemma {:induction false} CumSumFromAt(c: Column, acc: real, i: int)
    requires 0 <= i < |c|
    ensures CumSumFrom(c, acc)[i] == if c[i].None? then None else Some(acc + SumPresent(c[..i + 1]))
    decreases i
  {
    if i > 0 {
      var a := if c[0].Some? then acc + c[0].value else acc;
      CumSumFromAt(c[1..], a, i - 1);
      assert c[1..][..i] == c[..i + 1][1..];
    }
  }

  /** Entry `i` of the cumulative sum is null where the column is null, and otherwise the sum of the
      present entries up to and including `i`. */
  lemma CumSumAt(c: Column, i: int)
    requires 0 <= i < |c|
    ensures CumSum(c)[i] == if c[i].None? then None else Some(SumPresent(c[..i + 1]))
  {
    CumSumFromAt(c, 0.0, i);
  }

  /** `_compute_trade_statistics` after the position column is known: costs, returns, PnL and both
      running sums, aligned row by row with the input. */
  function TradeStatistics(obs: seq<Observation>, position: seq<int>): (ledger: TradeLedger)
    requires |position| == |obs|
    ensures |ledger.timestamp| == |ledger.position| == |ledger.transCost| == |ledger.periodReturns| == |obs|
    ensures |ledger.pnl| == |ledger.strategyCumPnL| == |ledger.benchmarkCumPnL| == |obs|
  {
    var price := seq(|obs|, i requires 0 <= i < |obs| => obs[i].price);
    var pnl := PnL(position, price);
    var ret := PctChange(price);
    TradeLedger(
      seq(|obs|, i requires 0 <= i < |obs| => obs[i].timestamp),
      position,
      TransCost(position),
      ret,
      pnl,
      CumSum(pnl),
      CumSum(ret))
  }

  /** Constant non-zero price: every return is 0, so the PnL of each bar is minus its cost and the
      benchmark's running sum stays at 0. */
  lemma ConstantPrice(position: seq<int>, price: seq<real>)
    requires |position| == |price| >= 1
    requires forall i :: 0 <= i < |price| ==> price[i] == price[0]
    requires price[0] != 0.0
    ensures forall i :: 1 <= i < |price| ==> PnL(position, price)[i] == Some(-TransCost(position)[i].value)
    ensures forall i :: 1 <= i < |price| ==> CumSum(PctChange(price))[i] == Some(0.0)
  {
    var ret := PctChange(price);
    forall i | 1 <= i < |price|
      ensures ret[i] == Some(0.0) && PnL(position, price)[i] == Some(-TransCost(position)[i].value)
    {
      assert price[i] == price[i - 1];
      DivSelf(price[i]);
      PnLAt(position, price, i);
    }
    forall i | 1 <= i < |price|
      ensures CumSum(ret)[i] == Some(0.0)
    {
      CumSumAt(ret, i);
      ZeroPrefix(ret, i + 1);
    }
  }

  /** Constant non-zero price: the strategy's running PnL never rises from one bar to the next, and
      falls by the cost of every position change. */
  lemma ConstantPriceCumPnL(position: seq<int>, price: seq<real>, i: int)
    requires |position| == |price| && 2 <= i < |price|
    requires forall j :: 0 <= j < |price| ==> price[j] == price[0]
    requires price[0] != 0.0
    ensures CumSum(PnL(position, price))[i].Some? && CumSum(PnL(position, price))[i - 1].Some?
    ensures CumSum(PnL(position, price))[i].value ==
      CumSum(PnL(position, price))[i - 1].value - TransCost(position)[i].value
    ensures CumSum(PnL(position, price))[i].value <= CumSum(PnL(position, price))[i - 1].value
  {
    var pnl := PnL(position, price);
    ConstantPrice(position, price);
    CumSumAt(pnl, i);
    CumSumAt(pnl, i - 1);
    SumPresentSnoc(pnl[..i + 1]);
    assert pnl[..i + 1][..i] == pnl[..i];
    TransCostNonNegative(position, i);
  }

  /** A column whose present entries are all zero (after a null first row) sums to zero. */
  lemma {:induction false} ZeroPrefix(c: Column, k: nat)
    requires 1 <= k <= |c| && c[0] == None
    requires forall i :: 1 <= i < |c| ==> c[i] == Some(0.0)
    ensures SumPresent(c[..k]) == 0.0
  {
    var s := c[..k];
    AllZero(s);
  }

  lemma {:induction false} AllZero(s: Column)
    requires forall i :: 0 <= i < |s| ==> s[i] == None || s[i] == Some(0.0)
    ensures SumPresent(s) == 0.0
  {
    if |s| > 0 {
      AllZero(s[1..]);
    }
  }

  /** Adding a row at the end adds its value (if present) to the sum. */
  lemma {:induction false} SumPresentSnoc(s: Column)
    requires |s| > 0
    ensures SumPresent(s) == SumPresent(s[..|s| - 1]) + (if s[|s| - 1].Some? then s[|s| - 1].value else 0.0)
  {
    if |s| > 1 {
      SumPresentSnoc(s[1..]);
      assert s[1..][..|s| - 2] == s[..|s| - 1][1..];
    }
  }

  /** A position column that never leaves flat earns nothing and pays nothing: every present PnL
      entry is 0. */
  lemma IdlePnL(position: seq<int>, price: seq<real>, i: int)
    requires |position| == |price| && 0 <= i < |price|
    requires forall j :: 0 <= j < |position| ==> position[j] == 0
    ensures PnL(position, price)[i].Some? ==> PnL(position, price)[i].value == 0.0
  {
    PnLAt(position, price, i);
    TransCostAt(position, i);
  }
}
