/** Exact sums, means and sample variances over real numbers. */
module Stats {

  /** Sum of a sequence, accumulated from the front as a running total does. */
  function Sum(s: seq<real>): real
  {
    if |s| == 0 then 0.0 else s[0] + Sum(s[1..])
  }

  function Mean(s: seq<real>): real
    requires |s| > 0
  {
    Sum(s) / |s| as real
  }

  /** Product and square are kept behind functions: the solver then reasons about their
      sign through the lemmas below rather than through its own non-linear rewriting. */
  function Mul(a: real, b: real): real
  {
    a * b
  }

  function Sq(x: real): real
  {
    Mul(x, x)
  }

  /** Sum of squared deviations from `mu`. */
  function SumSquares(s: seq<real>, mu: real): real
  {
    if |s| == 0 then 0.0 else Sq(s[0] - mu) + SumSquares(s[1..], mu)
  }

  /** Sample variance (denominator n - 1, numpy's `ddof=1`): the square of the sample standard deviation. */
  function Variance(s: seq<real>): real
    requires |s| >= 2
  {
    SumSquares(s, Mean(s)) / (|s| - 1) as real
  }

  predicate Constant(s: seq<real>)
  {
    forall i, j :: 0 <= i < |s| && 0 <= j < |s| ==> s[i] == s[j]
  }

  lemma MulPositive(a: real, b: real)
    requires a > 0.0 && b > 0.0
    ensures Mul(a, b) > 0.0
  {
  }

  lemma MulNonNegative(a: real, b: real)
    requires a >= 0.0 && b >= 0.0
    ensures Mul(a, b) >= 0.0
  {
  }

  lemma MulDistributes(a: real, b: real)
    ensures Mul(a, 1.0 + b) == a + Mul(a, b)
  {
  }

  lemma DivSelf(x: real)
    requires x != 0.0
    ensures x / x == 1.0
  {
  }

  lemma RatioBounds(c: real, m: real)
    requires 0.0 < c <= m
    ensures 0.0 < c / m <= 1.0
  {
  }

  lemma MulNegated(a: real, b: real)
    ensures Mul(-a, -b) == Mul(a, b)
  {
  }

  /** A square is never negative, and it is zero only at zero. */
  lemma SqSign(x: real)
    ensures Sq(x) >= 0.0
    ensures x != 0.0 ==> Sq(x) > 0.0
  {
    if x > 0.0 {
      MulPositive(x, x);
    } else if x < 0.0 {
      MulPositive(-x, -x);
      MulNegated(x, x);
    }
  }

  /** Scaling by a positive factor preserves strict order. */
  lemma MulScale(a: real, b: real, v: real)
    requires v > 0.0
    ensures a > b <==> Mul(a, v) > Mul(b, v)
    ensures a < b <==> Mul(a, v) < Mul(b, v)
  {
    assert Mul(a, v) - Mul(b, v) == Mul(a - b, v);
    if a > b {
      MulPositive(a - b, v);
    } else if a < b {
      MulPositive(b - a, v);
      assert Mul(b, v) - Mul(a, v) == Mul(b - a, v);
    }
  }

  /** On non-negative numbers, squaring preserves strict order. */
  lemma SqMonotone(a: real, b: real)
    requires a >= 0.0 && b >= 0.0
    ensures a > b <==> Sq(a) > Sq(b)
  {
    assert Sq(a) - Sq(b) == Mul(a - b, a + b);
    if a > b {
      MulPositive(a - b, a + b);
    } else if a < b {
      MulPositive(b - a, a + b);
      assert Sq(b) - Sq(a) == Mul(b - a, a + b);
    }
  }

  lemma SqNegated(x: real)
    ensures Sq(-x) == Sq(x)
  {
    MulNegated(x, x);
  }

  lemma {:induction false} SumSquaresNonNegative(s: seq<real>, mu: real)
    ensures SumSquares(s, mu) >= 0.0
  {
    if |s| > 0 {
      SumSquaresNonNegative(s[1..], mu);
      SqSign(s[0] - mu);
    }
  }

  /** A sum of squares vanishes only when every term does. */
  lemma {:induction false} SumSquaresZero(s: seq<real>, mu: real)
    requires SumSquares(s, mu) == 0.0
    ensures forall i :: 0 <= i < |s| ==> s[i] == mu
  {
    if |s| > 0 {
      SumSquaresNonNegative(s[1..], mu);
      SqSign(s[0] - mu);
      SumSquaresZero(s[1..], mu);
      forall i | 0 <= i < |s| ensures s[i] == mu {
        if i > 0 { assert s[i] == s[1..][i - 1]; }
      }
    }
  }

  lemma {:induction false} SumSquaresOfConstant(s: seq<real>, mu: real)
    requires forall i :: 0 <= i < |s| ==> s[i] == mu
    ensures SumSquares(s, mu) == 0.0
  {
    if |s| > 0 {
      SumSquaresOfConstant(s[1..], mu);
    }
  }

  lemma {:induction false} SumOfConstant(s: seq<real>, c: real)
    requires forall i :: 0 <= i < |s| ==> s[i] == c
    ensures Sum(s) == |s| as real * c
  {
    if |s| > 0 {
      SumOfConstant(s[1..], c);
    }
  }

  lemma {:induction false} SumSnoc(s: seq<real>, x: real)
    ensures Sum(s + [x]) == Sum(s) + x
  {
    if |s| > 0 {
      SumSnoc(s[1..], x);
      assert (s + [x])[1..] == s[1..] + [x];
    }
  }

  /** Summing commutes with adding two sequences entry by entry. */
  lemma {:induction false} SumPlus(a: seq<real>, b: seq<real>, c: seq<real>)
    requires |a| == |b| == |c|
    requires forall k :: 0 <= k < |c| ==> c[k] == a[k] + b[k]
    ensures Sum(c) == Sum(a) + Sum(b)
  {
    if |c| > 0 {
      SumPlus(a[1..], b[1..], c[1..]);
    }
  }

  /** A sequence that is zero except at one index sums to the value there. */
  lemma {:induction false} SumSingle(s: seq<real>, k0: int, x: real)
    requires 0 <= k0 < |s| && s[k0] == x
    requires forall k :: 0 <= k < |s| && k != k0 ==> s[k] == 0.0
    ensures Sum(s) == x
  {
    if k0 == 0 {
      SumOfConstant(s[1..], 0.0);
    } else {
      SumSingle(s[1..], k0 - 1, x);
    }
  }

  lemma VarianceNonNegative(s: seq<real>)
    requires |s| >= 2
    ensures Variance(s) >= 0.0
  {
    SumSquaresNonNegative(s, Mean(s));
  }

  /** The sample variance is zero exactly when all values are equal, and then every value is the mean. */
  lemma VarianceZeroIff(s: seq<real>)
    requires |s| >= 2
    ensures Variance(s) == 0.0 <==> Constant(s)
    ensures Variance(s) == 0.0 ==> forall i :: 0 <= i < |s| ==> s[i] == Mean(s)
  {
    var mu := Mean(s);
    var n1 := (|s| - 1) as real;
    if Variance(s) == 0.0 {
      assert SumSquares(s, mu) == Variance(s) * n1;
      SumSquaresZero(s, mu);
    }
    if Constant(s) {
      var c := s[0];
      assert forall i :: 0 <= i < |s| ==> s[i] == c;
      SumOfConstant(s, c);
      assert mu == c;
      SumSquaresOfConstant(s, mu);
    }
  }
}
