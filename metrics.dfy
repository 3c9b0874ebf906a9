/** Performance metrics over a trade ledger (backtester.py lines 100-144): the guard branches of the
    Sharpe ratio with its daily bucketing, the maximum drawdown, and the long/short ratio. */
module Metrics {
  import opened Wrappers
  import opened Stats
  import opened Accounting

  // ---------------------------------------------------------------------------------------------
  // Sharpe ratio

  const MsPerDay: int := 86_400_000

  /** `dt.truncate("1d")` of an epoch-millisecond timestamp: the day it falls in (floor division). */
  function Day(ts: int): int
  {
    ts / MsPerDay
  }

  function PresentOrZero(o: Option<real>): real
  {
    if o.Some? then o.value else 0.0
  }

  /** The days on which the rows fall. */
  function RowDays(ts: seq<int>): set<int>
  {
    if |ts| == 0 then {} else RowDays(ts[..|ts| - 1]) + {Day(ts[|ts| - 1])}
  }

  /** The keys of `group_by` on the truncated timestamp: each day once, in order of first
      occurrence (polars does not promise an order; the mean and deviation below do not depend on
      it). */
  function DayList(ts: seq<int>): seq<int>
  {
    if |ts| == 0 then []
    else
      var prev := DayList(ts[..|ts| - 1]);
      var day := Day(ts[|ts| - 1]);
      if day in prev then prev else prev + [day]
  }

  /** `pl.col("PnL").sum()` over the rows of day `d`: polars' sum skips nulls and gives 0 for a
      group with no present value. */
  function DaySum(ts: seq<int>, pnl: Column, d: int): real
    requires |ts| == |pnl|
  {
    if |ts| == 0 then 0.0
    else DaySum(ts[..|ts| - 1], pnl[..|ts| - 1], d) + (if Day(ts[|ts| - 1]) == d then PresentOrZero(pnl[|ts| - 1]) else 0.0)
  }

  /** The `aggPnL` column: one total per day group. No total is null, so `drop_nulls` keeps all. */
  function DailyTotals(ts: seq<int>, pnl: Column): (agg: seq<real>)
    requires |ts| == |pnl|
    ensures |agg| == |DayList(ts)|
  {
    var days := DayList(ts);
    seq(|days|, k requires 0 <= k < |days| => DaySum(ts, pnl, days[k]))
  }

  /** No value occurs twice: the first value does not recur, and neither does any later one. */
  predicate Distinct(s: seq<int>)
  {
    |s| == 0 || (s[0] !in s[1..] && Distinct(s[1..]))
  }

  /** `Distinct` means pairwise different. */
  lemma {:induction false} DistinctIff(s: seq<int>)
    ensures Distinct(s) <==> forall k, l :: 0 <= k < l < |s| ==> s[k] != s[l]
  {
    if |s| > 0 {
      DistinctIff(s[1..]);
      if Distinct(s) {
        forall k, l | 0 <= k < l < |s| ensures s[k] != s[l] {
          assert s[l] == s[1..][l - 1];
          if k > 0 {
            assert s[k] == s[1..][k - 1];
          }
        }
      }
      if forall k, l :: 0 <= k < l < |s| ==> s[k] != s[l] {
        forall k, l | 0 <= k < l < |s[1..]| ensures s[1..][k] != s[1..][l] {
          assert s[k + 1] != s[l + 1];
        }
      }
    }
  }

  lemma {:induction false} DistinctSnoc(s: seq<int>, x: int)
    requires Distinct(s) && x !in s
    ensures Distinct(s + [x])
  {
    if |s| > 0 {
      DistinctSnoc(s[1..], x);
      assert (s + [x])[1..] == s[1..] + [x];
    }
  }

  /** The day groups are exactly the days of the rows, each once. */
  lemma {:induction false} DayListCorrect(ts: seq<int>)
    ensures Distinct(DayList(ts))
    ensures forall d :: d in DayList(ts) <==> d in RowDays(ts)
  {
    if |ts| > 0 {
      var prev := DayList(ts[..|ts| - 1]);
      var day := Day(ts[|ts| - 1]);
      DayListCorrect(ts[..|ts| - 1]);
      if day !in prev {
        DistinctSnoc(prev, day);
      }
    }
  }

  /** There are no day groups exactly when there are no rows. */
  lemma DayListEmptyIff(ts: seq<int>)
    ensures |DayList(ts)| == 0 <==> |ts| == 0
  {
    if |ts| > 0 {
      var prev := DayList(ts[..|ts| - 1]);
      assert |DayList(ts)| >= |prev|;
      assert Day(ts[|ts| - 1]) in DayList(ts);
    }
  }

  /** A day on which no row falls sums to zero. */
  lemma {:induction false} DaySumAbsent(ts: seq<int>, pnl: Column, d: int)
    requires |ts| == |pnl| && d !in RowDays(ts)
    ensures DaySum(ts, pnl, d) == 0.0
  {
    if |ts| > 0 {
      var n := |ts| - 1;
      DaySumAbsent(ts[..n], pnl[..n], d);
    }
  }

  /** Daily bucketing is exact: one total per distinct day of the rows, and the totals of the days
      together add up to the summed present PnL of all rows. */
  lemma {:induction false} DailyTotalsSum(ts: seq<int>, pnl: Column)
    requires |ts| == |pnl|
    ensures Sum(DailyTotals(ts, pnl)) == SumPresent(pnl)
  {
    if |ts| > 0 {
      var n := |ts| - 1;
      DailyTotalsSum(ts[..n], pnl[..n]);
      SumPresentSnoc(pnl);
      DailyTotalsStep(ts, pnl);
    }
  }

  /** One more row adds its present PnL to the total of its day, whether that day already had a
      group or opens a new one. */
  lemma DailyTotalsStep(ts: seq<int>, pnl: Column)
    requires |ts| == |pnl| > 0
    ensures Sum(DailyTotals(ts, pnl)) ==
      Sum(DailyTotals(ts[..|ts| - 1], pnl[..|ts| - 1])) + PresentOrZero(pnl[|ts| - 1])
  {
    var n := |ts| - 1;
    var ts', pnl' := ts[..n], pnl[..n];
    var prev, day, v := DayList(ts'), Day(ts[n]), PresentOrZero(pnl[n]);
    DayListCorrect(ts');
    var agg', agg := DailyTotals(ts', pnl'), DailyTotals(ts, pnl);
    var head := agg[..|prev|];
    // each old day gains `v` if it is the new row's day
    var bump := seq(|prev|, k requires 0 <= k < |prev| => if prev[k] == day then v else 0.0);
    forall k | 0 <= k < |prev| ensures head[k] == agg'[k] + bump[k] {
      assert DayList(ts)[k] == prev[k];
    }
    SumPlus(agg', bump, head);
    if day in prev {
      BumpOnce(prev, day, v, bump);
      assert agg == head;
    } else {
      SumOfConstant(bump, 0.0);
      DaySumAbsent(ts', pnl', day);
      assert agg == head + [v];
      SumSnoc(head, v);
    }
  }

  lemma BumpOnce(days: seq<int>, day: int, v: real, bump: seq<real>)
    requires Distinct(days) && day in days && |bump| == |days|
    requires forall k :: 0 <= k < |days| ==> bump[k] == if days[k] == day then v else 0.0
    ensures Sum(bump) == v
  {
    var k0 :| 0 <= k0 < |days| && days[k0] == day;
    DistinctIff(days);
    forall k | 0 <= k < |days| && k != k0 ensures bump[k] == 0.0 {
      assert days[k] != days[k0];
    }
    SumSingle(bump, k0, v);
  }


  /** The outcome of `compute_sharpe_ratio`. The square roots are not modelled: `Annualised` stands
      for `(mean / sqrt(variance)) * sqrt(tradingDays)`. */
  datatype SharpeRatio = Zero | NotANumber | Annualised(mean: real, variance: real, tradingDays: int)

  /** `compute_sharpe_ratio`: daily totals, then 0 for an empty list, NaN for a single day (the
      sample deviation of one value), 0 for a zero deviation, and the annualised ratio otherwise. */
  function ComputeSharpeRatio(ts: seq<int>, pnl: Column, tradingDays: int): (r: SharpeRatio)
    requires |ts| == |pnl|
    ensures |ts| == 0 ==> r == Zero
    ensures r.Annualised? ==> r.variance > 0.0 && r.tradingDays == tradingDays
  {
    var agg := DailyTotals(ts, pnl);
    if |agg| == 0 then Zero
    else if |agg| == 1 then NotANumber
    else if Variance(agg) == 0.0 then Zero
    else
      VarianceNonNegative(agg);
      Annualised(Mean(agg), Variance(agg), tradingDays)
  }

  /** The Sharpe ratio is 0 exactly when there are no rows or all daily totals are equal (zero
      sample deviation) over at least two days; it is NaN exactly when all rows fall in one day;
      otherwise the deviation is strictly positive and the ratio is the mean daily total over it. */
  lemma SharpeRatioCases(ts: seq<int>, pnl: Column, tradingDays: int)
    requires |ts| == |pnl|
    ensures var agg := DailyTotals(ts, pnl);
      && (ComputeSharpeRatio(ts, pnl, tradingDays) == Zero <==> |ts| == 0 || (|agg| >= 2 && Constant(agg)))
      && (ComputeSharpeRatio(ts, pnl, tradingDays) == NotANumber <==> |agg| == 1)
      && (ComputeSharpeRatio(ts, pnl, tradingDays).Annualised? ==>
            |agg| >= 2 && ComputeSharpeRatio(ts, pnl, tradingDays).variance > 0.0 &&
            ComputeSharpeRatio(ts, pnl, tradingDays).mean == Mean(agg) &&
            ComputeSharpeRatio(ts, pnl, tradingDays).variance == Variance(agg) &&
            ComputeSharpeRatio(ts, pnl, tradingDays).tradingDays == tradingDays)
  {
    DayListEmptyIff(ts);
    var agg := DailyTotals(ts, pnl);
    if |agg| >= 2 {
      VarianceZeroIff(agg);
      VarianceNonNegative(agg);
    }
  }

  // ---------------------------------------------------------------------------------------------
  // Maximum drawdown

  /** A float result: a real number, minus infinity, or NaN. */
  datatype Extended = Finite(v: real) | NegInfinity | NaN

  /** `np.min` raises on an empty array. */
  datatype MetricError = EmptySeries

  /** `drop_nulls()`: the present values, in order. */
  function DropNulls(c: Column): (r: seq<real>)
    ensures |r| <= |c|
  {
    if |c| == 0 then []
    else (if c[0].Some? then [c[0].value] else []) + DropNulls(c[1..])
  }

  /** `np.cumprod(1 + returns)`. */
  function CumProd(r: seq<real>): (c: seq<real>)
    ensures |c| == |r|
  {
    if |r| == 0 then []
    else
      var p := CumProd(r[..|r| - 1]);
      p + [Mul(if |p| == 0 then 1.0 else p[|p| - 1], 1.0 + r[|r| - 1])]
  }

  /** `np.maximum.accumulate`: entry `i` is the largest of the first `i + 1` values. */
  function RunningMax(c: seq<real>): (m: seq<real>)
    ensures |m| == |c|
    ensures forall i, j :: 0 <= j <= i < |c| ==> c[j] <= m[i]
  {
    if |c| == 0 then []
    else
      var p := RunningMax(c[..|c| - 1]);
      var last := c[|c| - 1];
      p + [if |p| == 0 || last > p[|p| - 1] then last else p[|p| - 1]]
  }

  /** The running maximum at `i` is attained: it is the value at some index `j <= i`. */
  lemma {:induction false} RunningMaxAttained(c: seq<real>, i: nat) returns (j: nat)
    requires i < |c|
    ensures j <= i && RunningMax(c)[i] == c[j]
  {
    var n := |c| - 1;
    var p := RunningMax(c[..n]);
    assert RunningMax(c) == p + [if |p| == 0 || c[n] > p[|p| - 1] then c[n] else p[|p| - 1]];
    if i < n {
      j := RunningMaxAttained(c[..n], i);
    } else if n == 0 || c[n] > p[n - 1] {
      j := n;
    } else {
      j := RunningMaxAttained(c[..n], n - 1);
    }
  }

  /** `cumprod / running_max - 1` for one entry, where `c <= m`: a zero running maximum gives 0/0
      (NaN) or a negative value over zero (minus infinity). */
  function DrawdownAt(c: real, m: real): Extended
    requires c <= m
  {
    if m != 0.0 then Finite(c / m - 1.0)
    else if c == 0.0 then NaN
    else NegInfinity
  }

  /** The smaller of two float values, NaN absorbing as in `np.min`. */
  function Min2(a: Extended, b: Extended): Extended
  {
    if a.NaN? || b.NaN? then NaN
    else if a.NegInfinity? || b.NegInfinity? then NegInfinity
    else Finite(if a.v <= b.v then a.v else b.v)
  }

  /** `np.min` of a non-empty array. */
  function MinOf(s: seq<Extended>): (r: Extended)
    requires |s| > 0
    ensures r.Finite? ==> forall i :: 0 <= i < |s| ==> s[i].Finite? && r.v <= s[i].v
    ensures r.Finite? ==> r in s
  {
    if |s| == 1 then s[0] else Min2(s[0], MinOf(s[1..]))
  }

  function Drawdowns(r: seq<real>): (dd: seq<Extended>)
    ensures |dd| == |r|
  {
    var c := CumProd(r);
    var m := RunningMax(c);
    seq(|r|, i requires 0 <= i < |r| => DrawdownAt(c[i], m[i]))
  }

  /** `_compute_max_drawdown` on the strategy PnL column. */
  function MaxDrawdown(pnl: Column): (result: Result<Extended, MetricError>)
    ensures result.Err? <==> forall i :: 0 <= i < |pnl| ==> pnl[i].None?
  {
    DropNullsEmptyIff(pnl);
    var r := DropNulls(pnl);
    if |r| == 0 then Err(EmptySeries) else Ok(MinOf(Drawdowns(r)))
  }

  lemma {:induction false} DropNullsEmptyIff(c: Column)
    ensures |DropNulls(c)| == 0 <==> forall i :: 0 <= i < |c| ==> c[i].None?
  {
    if |c| > 0 {
      DropNullsEmptyIff(c[1..]);
      if c[0].None? {
        forall i | 0 <= i < |c| && (forall j :: 0 <= j < |c[1..]| ==> c[1..][j].None?) ensures c[i].None? {
          if i > 0 { assert c[i] == c[1..][i - 1]; }
        }
      }
    }
  }

  /** Every present value survives `drop_nulls`, and nothing else does. */
  lemma {:induction false} DropNullsKeeps(c: Column)
    ensures forall x :: x in DropNulls(c) <==> Some(x) in c
  {
    if |c| > 0 {
      DropNullsKeeps(c[1..]);
      assert c == [c[0]] + c[1..];
    }
  }

  /** The first drawdown is 0 (the first value is its own running maximum), or NaN when the first
      cumulative product is 0. */
  lemma FirstDrawdown(r: seq<real>)
    requires |r| > 0
    ensures Drawdowns(r)[0] == (if CumProd(r)[0] == 0.0 then NaN else Finite(0.0))
  {
    var c := CumProd(r);
    var j := RunningMaxAttained(c, 0);
    assert j == 0;
    assert RunningMax(c)[0] == c[0];
    DrawdownAtPeak(c[0]);
    DrawdownsAt(r, 0);
    assert Drawdowns(r)[0] == DrawdownAt(c[0], c[0]);
  }

  lemma DrawdownsAt(r: seq<real>, i: nat)
    requires i < |r|
    ensures Drawdowns(r)[i] == DrawdownAt(CumProd(r)[i], RunningMax(CumProd(r))[i])
  {
  }

  /** At a running maximum the drawdown is 0, or NaN when that maximum is 0. */
  lemma DrawdownAtPeak(x: real)
    ensures DrawdownAt(x, x) == if x == 0.0 then NaN else Finite(0.0)
  {
    if x != 0.0 {
      DivSelf(x);
    }
  }

  /** The maximum drawdown is never a positive number: either an error on an all-null column, NaN,
      minus infinity, or a finite value at most 0. */
  lemma MaxDrawdownNotPositive(pnl: Column)
    ensures MaxDrawdown(pnl).Err? <==> forall i :: 0 <= i < |pnl| ==> pnl[i].None?
    ensures MaxDrawdown(pnl).Ok? && MaxDrawdown(pnl).value.Finite? ==> MaxDrawdown(pnl).value.v <= 0.0
  {
    DropNullsEmptyIff(pnl);
    var r := DropNulls(pnl);
    if |r| > 0 {
      FirstDrawdown(r);
    }
  }

  /** With all present returns greater than -1 every cumulative product is positive, so the
      maximum drawdown is a finite value in (-1, 0]. */
  lemma MaxDrawdownBounded(pnl: Column)
    requires exists i :: 0 <= i < |pnl| && pnl[i].Some?
    requires forall i :: 0 <= i < |pnl| && pnl[i].Some? ==> pnl[i].value > -1.0
    ensures MaxDrawdown(pnl).Ok? && MaxDrawdown(pnl).value.Finite?
    ensures -1.0 < MaxDrawdown(pnl).value.v <= 0.0
  {
    DropNullsEmptyIff(pnl);
    DropNullsKeeps(pnl);
    var r := DropNulls(pnl);
    assert forall j :: 0 <= j < |r| ==> r[j] > -1.0 by {
      forall j | 0 <= j < |r| ensures r[j] > -1.0 {
        assert r[j] in r;
      }
    }
    CumProdPositive(r);
    var c := CumProd(r);
    var m := RunningMax(c);
    var dd := Drawdowns(r);
    forall i | 0 <= i < |r| ensures dd[i].Finite? && -1.0 < dd[i].v <= 0.0 {
      assert c[i] <= m[i];
      RatioBounds(c[i], m[i]);
    }
    MinOfWithin(dd, -1.0, 0.0);
  }

  /** With no negative present return the cumulative product never falls, so the drawdown is
      exactly 0. */
  lemma MaxDrawdownOfGains(pnl: Column)
    requires exists i :: 0 <= i < |pnl| && pnl[i].Some?
    requires forall i :: 0 <= i < |pnl| && pnl[i].Some? ==> pnl[i].value >= 0.0
    ensures MaxDrawdown(pnl) == Ok(Finite(0.0))
  {
    DropNullsEmptyIff(pnl);
    DropNullsKeeps(pnl);
    var r := DropNulls(pnl);
    assert forall j :: 0 <= j < |r| ==> r[j] >= 0.0 by {
      forall j | 0 <= j < |r| ensures r[j] >= 0.0 {
        assert r[j] in r;
      }
    }
    GainsNeverDraw(r);
    var dd := Drawdowns(r);
    MinOfConstant(dd, Finite(0.0));
    assert MaxDrawdown(pnl) == Ok(MinOf(dd));
  }

  lemma {:induction false} MinOfConstant(s: seq<Extended>, x: Extended)
    requires |s| > 0 && x.Finite?
    requires forall i :: 0 <= i < |s| ==> s[i] == x
    ensures MinOf(s) == x
  {
    if |s| > 1 {
      MinOfConstant(s[1..], x);
    }
  }

  /** Non-negative returns: every drawdown entry is exactly 0. */
  lemma GainsNeverDraw(r: seq<real>)
    requires forall j :: 0 <= j < |r| ==> r[j] >= 0.0
    ensures forall i :: 0 <= i < |r| ==> Drawdowns(r)[i] == Finite(0.0)
  {
    CumProdGrows(r);
    var c := CumProd(r);
    var m := RunningMax(c);
    forall i | 0 <= i < |r| ensures Drawdowns(r)[i] == Finite(0.0) {
      var j := RunningMaxAttained(c, i);
      assert m[i] == c[i];
      DrawdownAtPeak(c[i]);
    }
  }

  /** The minimum of finite values that all lie in a range lies in it too. */
  lemma {:induction false} MinOfWithin(s: seq<Extended>, lo: real, hi: real)
    requires |s| > 0
    requires forall i :: 0 <= i < |s| ==> s[i].Finite?
    requires forall i :: 0 <= i < |s| ==> lo < s[i].v <= hi
    ensures MinOf(s).Finite?
    ensures lo < MinOf(s).v <= hi
  {
    if |s| > 1 {
      MinOfWithin(s[1..], lo, hi);
    }
  }

  lemma {:induction false} CumProdPositive(r: seq<real>)
    requires forall j :: 0 <= j < |r| ==> r[j] > -1.0
    ensures forall i :: 0 <= i < |r| ==> CumProd(r)[i] > 0.0
  {
    if |r| > 0 {
      var n := |r| - 1;
      CumProdPositive(r[..n]);
      var p := CumProd(r[..n]);
      assert CumProd(r) == p + [Mul(if n == 0 then 1.0 else p[n - 1], 1.0 + r[n])];
      MulPositive(if n == 0 then 1.0 else p[n - 1], 1.0 + r[n]);
    }
  }

  /** Non-negative returns: the cumulative product starts at 1 or more and never decreases. */
  lemma {:induction false} CumProdGrows(r: seq<real>)
    requires forall j :: 0 <= j < |r| ==> r[j] >= 0.0
    ensures forall i :: 0 <= i < |r| ==> CumProd(r)[i] >= 1.0
    ensures forall i, j :: 0 <= j <= i < |r| ==> CumProd(r)[j] <= CumProd(r)[i]
  {
    if |r| > 0 {
      var n := |r| - 1;
      CumProdGrows(r[..n]);
      var p := CumProd(r[..n]);
      var prev := if n == 0 then 1.0 else p[n - 1];
      assert CumProd(r) == p + [Mul(prev, 1.0 + r[n])];
      MulDistributes(prev, r[n]);
      MulNonNegative(prev, r[n]);
    }
  }

  // ---------------------------------------------------------------------------------------------
  // Long/short ratio

  /** Number of rows whose position equals `v` (`filter(position == v).shape[0]`). */
  function Count(position: seq<int>, v: int): nat
  {
    if |position| == 0 then 0
    else (if position[0] == v then 1 else 0) + Count(position[1..], v)
  }

  /** `_compute_long_short_ratio`: long rows over short rows, absent unless both are non-zero. */
  function LongShortRatio(position: seq<int>): (r: Option<real>)
    ensures r.None? <==> Count(position, 1) == 0 || Count(position, -1) == 0
    ensures r.Some? ==> r.value > 0.0 && Mul(r.value, Count(position, -1) as real) == Count(position, 1) as real
  {
    var long := Count(position, 1);
    var short := Count(position, -1);
    if short != 0 && long != 0 then Some(long as real / short as real) else None
  }

  /** The count is the multiplicity of `v` in the column. */
  lemma {:induction false} CountIsMultiplicity(position: seq<int>, v: int)
    ensures Count(position, v) == multiset(position)[v]
  {
    if |position| > 0 {
      CountIsMultiplicity(position[1..], v);
      assert position == [position[0]] + position[1..];
    }
  }

  /** Long, flat and short rows account for every row of a position column. */
  lemma {:induction false} CountsPartition(position: seq<int>)
    requires forall i :: 0 <= i < |position| ==> -1 <= position[i] <= 1
    ensures Count(position, 1) + Count(position, 0) + Count(position, -1) == |position|
  {
    if |position| > 0 {
      CountsPartition(position[1..]);
    }
  }

  /** The ratio is present exactly when the column holds at least one long and one short row. */
  lemma LongShortRatioPresentIff(position: seq<int>)
    ensures LongShortRatio(position).Some? <==>
      (exists i :: 0 <= i < |position| && position[i] == 1) &&
      (exists j :: 0 <= j < |position| && position[j] == -1)
  {
    CountIsMultiplicity(position, 1);
    CountIsMultiplicity(position, -1);
    assert forall v :: v in multiset(position) <==> v in position;
  }

  // ---------------------------------------------------------------------------------------------
  // A strategy that never trades

  lemma {:induction false} DaySumOfIdle(ts: seq<int>, pnl: Column, d: int)
    requires |ts| == |pnl|
    requires forall i :: 0 <= i < |pnl| && pnl[i].Some? ==> pnl[i].value == 0.0
    ensures DaySum(ts, pnl, d) == 0.0
  {
    if |ts| > 0 {
      DaySumOfIdle(ts[..|ts| - 1], pnl[..|ts| - 1], d);
    }
  }

  /** When every present PnL entry is 0 every daily total is 0, so the Sharpe ratio is 0, or NaN
      when all rows fall in one day; it is never an annualised value. */
  lemma SharpeOfIdle(ts: seq<int>, pnl: Column, tradingDays: int)
    requires |ts| == |pnl|
    requires forall i :: 0 <= i < |pnl| && pnl[i].Some? ==> pnl[i].value == 0.0
    ensures ComputeSharpeRatio(ts, pnl, tradingDays) ==
      if |DailyTotals(ts, pnl)| == 1 then NotANumber else Zero
  {
    var agg := DailyTotals(ts, pnl);
    forall k | 0 <= k < |agg| ensures agg[k] == 0.0 {
      DaySumOfIdle(ts, pnl, DayList(ts)[k]);
    }
    if |agg| >= 2 {
      VarianceZeroIff(agg);
    }
  }
}
