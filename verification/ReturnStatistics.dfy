/**
 Population covariance of return series over a shared window, in exact reals: the variance of a
 weighted portfolio is a quadratic form in the covariance matrix, never negative, and never more
 than the square of the undiversified sum.
 */
module ReturnStatistics {

  type Series = seq<real>

  // ---------------------------------------------------------------------------
  // Arithmetic laws; everything after them treats products as opaque terms
  // ---------------------------------------------------------------------------

  function Times(x: real, y: real): real {
    x * y
  }

  /** The average of a total over `n` observations. */
  function Over(total: real, n: nat): real
    requires n > 0
  {
    total / n as real
  }

  function RealAbs(x: real): real {
    if x < 0.0 then 0.0 - x else x
  }

  lemma Symmetric(x: real, y: real)
    ensures Times(x, y) == Times(y, x)
  {
  }

  lemma Distribute(c: real, x: real, y: real)
    ensures Times(c, x + y) == Times(c, x) + Times(c, y)
  {
  }

  lemma Zero(x: real)
    ensures Times(x, 0.0) == 0.0 && Times(0.0, x) == 0.0
  {
  }

  lemma PlusTerm(a: real, u: real, c: real, v: real)
    ensures Times(a, u + Times(c, v)) == Times(a, u) + Times(c, Times(a, v))
  {
  }

  lemma Square(x: real)
    ensures Times(x, x) >= 0.0
  {
    if x < 0.0 {
      assert (0.0 - x) * (0.0 - x) > 0.0;
    }
  }

  lemma OverTimes(total: real, n: nat)
    requires n > 0
    ensures Times(Over(total, n), n as real) == total
    ensures total >= 0.0 ==> Over(total, n) >= 0.0
  {
  }

  lemma OverIs(average: real, total: real, n: nat)
    requires n > 0 && Times(average, n as real) == total
    ensures average == Over(total, n)
  {
  }

  lemma NonNegative(x: real, y: real)
    requires x >= 0.0 && y >= 0.0
    ensures Times(x, y) >= 0.0
  {
  }

  lemma Monotone(x: real, y: real, z: real)
    requires x <= y && z >= 0.0
    ensures Times(x, z) <= Times(y, z)
  {
    NonNegative(y - x, z);
    assert (y - x) * z == y * z - x * z;
  }

  lemma SquareLess(x: real, y: real)
    requires 0.0 <= x < y
    ensures Times(x, x) < Times(y, y)
  {
    Positive(y - x, y + x);
    assert (y - x) * (y + x) == (y - x) * y + (y - x) * x;
  }

  lemma Positive(x: real, y: real)
    requires x > 0.0 && y > 0.0
    ensures Times(x, y) > 0.0
  {
  }

  lemma SquareOfNegation(x: real)
    ensures Times(0.0 - x, 0.0 - x) == Times(x, x)
  {
  }

  /** A number is at most another non-negative one when its square is. */
  lemma RootBound(x: real, y: real)
    requires y >= 0.0 && Times(x, x) <= Times(y, y)
    ensures x <= y && 0.0 - x <= y
  {
    SquareOfNegation(x);
    hide Times;
    if y < x {
      SquareLess(y, x);
    }
    if y < 0.0 - x {
      SquareLess(y, 0.0 - x);
    }
  }

  lemma SquareOfProduct(x: real, y: real)
    ensures Times(Times(x, y), Times(x, y)) == Times(Times(x, x), Times(y, y))
  {
  }

  lemma SquareOfSum(u: real, v: real)
    ensures Times(u + v, u + v) == Times(u, u) + 2.0 * Times(u, v) + Times(v, v)
  {
    assert (u + v) * (u + v) == (u + v) * u + (u + v) * v;
  }

  lemma SquareOfDifference(u: real, v: real)
    ensures Times(u - v, u - v) == Times(u + v, u + v) - 4.0 * Times(u, v)
  {
    assert (u - v) * (u - v) == (u - v) * u - (u - v) * v;
    assert (u + v) * (u + v) == (u + v) * u + (u + v) * v;
  }

  lemma FourSquares(z: real)
    ensures Times(2.0 * z, 2.0 * z) == 4.0 * Times(z, z)
  {
  }

  lemma Exchange(a: real, b: real, p: real, q: real)
    ensures Times(Times(p, q), Times(a, b)) == Times(Times(a, q), Times(b, p))
  {
    assert (p * q) * (a * b) == ((p * q) * a) * b;
    assert (a * q) * (b * p) == ((a * q) * p) * b;
    assert (p * q) * a == (a * q) * p;
  }

  lemma Associative(a: real, b: real, c: real)
    ensures Times(Times(a, b), c) == Times(a, Times(b, c))
  {
  }

  lemma Expand(a: real, b: real, c: real, d: real)
    ensures Times(a + b, c + d) == Times(a, c) + Times(a, d) + Times(b, c) + Times(b, d)
  {
    assert (a + b) * (c + d) == a * (c + d) + b * (c + d);
  }

  // ---------------------------------------------------------------------------
  // Sums of products
  // ---------------------------------------------------------------------------

  function SumTo(a: Series, n: nat): real
    requires n <= |a|
  {
    if n == 0 then 0.0 else SumTo(a, n - 1) + a[n - 1]
  }

  function DotTo(a: Series, b: Series, n: nat): real
    requires n <= |a| && n <= |b|
  {
    if n == 0 then 0.0 else DotTo(a, b, n - 1) + Times(a[n - 1], b[n - 1])
  }

  lemma {:induction false} DotSymmetric(a: Series, b: Series, n: nat)
    requires n <= |a| && n <= |b|
    ensures DotTo(a, b, n) == DotTo(b, a, n)
  {
    hide Times;
    if n > 0 {
      DotSymmetric(a, b, n - 1);
      Symmetric(a[n - 1], b[n - 1]);
    }
  }

  lemma {:induction false} DotSelfNonNegative(a: Series, n: nat)
    requires n <= |a|
    ensures DotTo(a, a, n) >= 0.0
  {
    hide Times;
    if n > 0 {
      DotSelfNonNegative(a, n - 1);
      Square(a[n - 1]);
    }
  }

  /** The sum of products is linear in each series. */
  lemma {:induction false} DotPlus(a: Series, u: Series, c: real, v: Series, z: Series, n: nat)
    requires n <= |a| && n <= |u| && n <= |v| && n <= |z|
    requires forall t :: 0 <= t < n ==> z[t] == u[t] + Times(c, v[t])
    ensures DotTo(a, z, n) == DotTo(a, u, n) + Times(c, DotTo(a, v, n))
  {
    hide Times;
    if n == 0 {
      Zero(c);
    } else {
      DotPlus(a, u, c, v, z, n - 1);
      PlusTerm(a[n - 1], u[n - 1], c, v[n - 1]);
      Distribute(c, DotTo(a, v, n - 1), Times(a[n - 1], v[n - 1]));
    }
  }

  lemma {:induction false} SumPlus(u: Series, c: real, v: Series, z: Series, n: nat)
    requires n <= |u| && n <= |v| && n <= |z|
    requires forall t :: 0 <= t < n ==> z[t] == u[t] + Times(c, v[t])
    ensures SumTo(z, n) == SumTo(u, n) + Times(c, SumTo(v, n))
  {
    hide Times;
    if n == 0 {
      Zero(c);
    } else {
      SumPlus(u, c, v, z, n - 1);
      Distribute(c, SumTo(v, n - 1), v[n - 1]);
    }
  }

  lemma {:induction false} DotZero(a: Series, z: Series, n: nat)
    requires n <= |a| && n <= |z| && forall t :: 0 <= t < n ==> z[t] == 0.0
    ensures DotTo(a, z, n) == 0.0
  {
    hide Times;
    if n > 0 {
      DotZero(a, z, n - 1);
      Zero(a[n - 1]);
    }
  }

  lemma {:induction false} SumZero(z: Series, n: nat)
    requires n <= |z| && forall t :: 0 <= t < n ==> z[t] == 0.0
    ensures SumTo(z, n) == 0.0
  {
    if n > 0 {
      SumZero(z, n - 1);
    }
  }

  // ---------------------------------------------------------------------------
  // Cauchy-Schwarz
  // ---------------------------------------------------------------------------

  /** Twice a product of three numbers is bounded by two squares when the third is bounded by their weights. */
  lemma Cross(x: real, y: real, s: real, p: real, q: real)
    requires p >= 0.0 && q >= 0.0 && Times(s, s) <= Times(p, q)
    ensures 2.0 * Times(Times(x, y), s) <= Times(Times(x, x), q) + Times(Times(y, y), p)
  {
    hide Times;
    var u, v := Times(Times(x, x), q), Times(Times(y, y), p);
    var m := Times(x, y);
    Square(x);
    Square(y);
    Square(m);
    NonNegative(Times(x, x), q);
    NonNegative(Times(y, y), p);
    Square(u - v);
    SquareOfDifference(u, v);
    SquareOfProduct(x, y);
    SquareOfProduct(m, s);
    Monotone(Times(s, s), Times(p, q), Times(m, m));
    Symmetric(Times(m, m), Times(s, s));
    FourSquares(Times(m, s));
    Exchange(Times(x, x), Times(y, y), p, q);
    RootBound(2.0 * Times(m, s), u + v);
  }

  lemma OneMoreTerm(x: real, y: real, s: real, p: real, q: real)
    requires p >= 0.0 && q >= 0.0 && Times(s, s) <= Times(p, q)
    ensures Times(s + Times(x, y), s + Times(x, y)) <= Times(p + Times(x, x), q + Times(y, y))
  {
    hide Times;
    Cross(x, y, s, p, q);
    SquareOfSum(s, Times(x, y));
    SquareOfProduct(x, y);
    Symmetric(s, Times(x, y));
    Symmetric(p, Times(y, y));
    Expand(p, Times(x, x), q, Times(y, y));
  }

  lemma {:induction false} CauchySchwarz(a: Series, b: Series, n: nat)
    requires n <= |a| && n <= |b|
    ensures Times(DotTo(a, b, n), DotTo(a, b, n)) <= Times(DotTo(a, a, n), DotTo(b, b, n))
  {
    hide Times;
    if n == 0 {
      Zero(0.0);
    } else {
      CauchySchwarz(a, b, n - 1);
      DotSelfNonNegative(a, n - 1);
      DotSelfNonNegative(b, n - 1);
      OneMoreTerm(a[n - 1], b[n - 1], DotTo(a, b, n - 1), DotTo(a, a, n - 1), DotTo(b, b, n - 1));
    }
  }

  // ---------------------------------------------------------------------------
  // Weighted series
  // ---------------------------------------------------------------------------

  /** Every series has `length` observations, over the same window. */
  ghost predicate Shaped(rows: seq<Series>, length: nat) {
    forall i :: 0 <= i < |rows| ==> |rows[i]| == length
  }

  ghost function CombineAt(w: Series, rows: seq<Series>, length: nat, t: nat, n: nat): real
    requires n <= |w| && n <= |rows| && t < length && Shaped(rows, length)
  {
    if n == 0 then 0.0 else CombineAt(w, rows, length, t, n - 1) + Times(w[n - 1], rows[n - 1][t])
  }

  /** The weighted sum of the first `n` series, observation by observation. */
  ghost function Combine(w: Series, rows: seq<Series>, length: nat, n: nat): (combined: Series)
    requires n <= |w| && n <= |rows| && Shaped(rows, length)
    ensures |combined| == length
  {
    seq(length, t requires 0 <= t < length => CombineAt(w, rows, length, t, n))
  }

  lemma CombineOneMore(w: Series, rows: seq<Series>, length: nat, n: nat)
    requires 0 < n <= |w| && n <= |rows| && Shaped(rows, length)
    ensures forall t :: 0 <= t < length ==>
              Combine(w, rows, length, n)[t] == Combine(w, rows, length, n - 1)[t] + Times(w[n - 1], rows[n - 1][t])
  {
    hide Times;
  }

  ghost function WeightedDots(a: Series, w: Series, rows: seq<Series>, length: nat, n: nat): real
    requires n <= |w| && n <= |rows| && Shaped(rows, length) && length <= |a|
  {
    if n == 0 then 0.0 else WeightedDots(a, w, rows, length, n - 1) + Times(w[n - 1], DotTo(a, rows[n - 1], length))
  }

  lemma {:induction false} DotOfCombination(a: Series, w: Series, rows: seq<Series>, length: nat, n: nat)
    requires n <= |w| && n <= |rows| && Shaped(rows, length) && length <= |a|
    ensures DotTo(a, Combine(w, rows, length, n), length) == WeightedDots(a, w, rows, length, n)
  {
    hide Times, DotTo;
    var z := Combine(w, rows, length, n);
    if n == 0 {
      DotZero(a, z, length);
    } else {
      DotOfCombination(a, w, rows, length, n - 1);
      CombineOneMore(w, rows, length, n);
      hide Combine;
      DotPlus(a, Combine(w, rows, length, n - 1), w[n - 1], rows[n - 1], z, length);
    }
  }

  // ---------------------------------------------------------------------------
  // The covariance matrix
  // ---------------------------------------------------------------------------

  function Mean(x: Series): real
    requires |x| > 0
  {
    Over(SumTo(x, |x|), |x|)
  }

  function Centred(x: Series): (c: Series)
    requires |x| > 0
    ensures |c| == |x|
  {
    seq(|x|, t requires 0 <= t < |x| => x[t] - Mean(x))
  }

  /** The population covariance of two series. */
  function Covariance(x: Series, y: Series): real
    requires |x| == |y| > 0
  {
    Over(DotTo(Centred(x), Centred(y), |x|), |x|)
  }

  function Variance(x: Series): real
    requires |x| > 0
  {
    Covariance(x, x)
  }

  lemma CovarianceIsSymmetric(x: Series, y: Series)
    requires |x| == |y| > 0
    ensures Covariance(x, y) == Covariance(y, x)
  {
    DotSymmetric(Centred(x), Centred(y), |x|);
  }

  /** The contribution of row `i` to the quadratic form, over its first `n` columns. */
  function RowTo(w: Series, x: seq<Series>, length: nat, i: nat, n: nat): real
    requires Shaped(x, length) && length > 0 && |w| == |x| && i < |x| && n <= |x|
  {
    if n == 0 then 0.0
    else RowTo(w, x, length, i, n - 1) + Times(Times(w[i], Covariance(x[i], x[n - 1])), w[n - 1])
  }

  function QuadraticTo(w: Series, x: seq<Series>, length: nat, n: nat): real
    requires Shaped(x, length) && length > 0 && |w| == |x| && n <= |x|
  {
    if n == 0 then 0.0 else QuadraticTo(w, x, length, n - 1) + RowTo(w, x, length, n - 1, |x|)
  }

  /** The portfolio variance: the quadratic form of the covariance matrix in the weights. */
  function PortfolioVariance(w: Series, x: seq<Series>, length: nat): real
    requires Shaped(x, length) && length > 0 && |w| == |x|
  {
    QuadraticTo(w, x, length, |x|)
  }

  ghost function CentredRows(x: seq<Series>, length: nat): (rows: seq<Series>)
    requires Shaped(x, length) && length > 0
    ensures |rows| == |x| && Shaped(rows, length)
    ensures forall i :: 0 <= i < |x| ==> rows[i] == Centred(x[i])
  {
    seq(|x|, i requires 0 <= i < |x| => Centred(x[i]))
  }

  lemma RowStep(row: real, x: real, before: real, e: real, y: real, d: real, length: real)
    requires Times(row, length) == Times(x, before) && Times(e, length) == d
    ensures Times(row + Times(Times(x, e), y), length) == Times(x, before + Times(y, d))
  {
    assert x * e * y * length == x * (y * (e * length));
  }

  /** A row of the quadratic form, times the number of observations, is a weighted sum of dot products. */
  lemma {:induction false} RowIsDot(w: Series, x: seq<Series>, length: nat, i: nat, n: nat)
    requires Shaped(x, length) && length > 0 && |w| == |x| && i < |x| && n <= |x|
    ensures var rows := CentredRows(x, length);
            Times(RowTo(w, x, length, i, n), length as real) == Times(w[i], WeightedDots(rows[i], w, rows, length, n))
  {
    hide Over, Times, DotTo, CentredRows, Centred;
    if n == 0 {
      Zero(length as real);
      Zero(w[i]);
    } else {
      var rows := CentredRows(x, length);
      RowIsDot(w, x, length, i, n - 1);
      OverTimes(DotTo(rows[i], rows[n - 1], length), length);
      RowStep(RowTo(w, x, length, i, n - 1), w[i], WeightedDots(rows[i], w, rows, length, n - 1),
              Covariance(x[i], x[n - 1]), w[n - 1], DotTo(rows[i], rows[n - 1], length), length as real);
    }
  }

  lemma {:induction false} QuadraticIsDot(w: Series, x: seq<Series>, length: nat, n: nat)
    requires Shaped(x, length) && length > 0 && |w| == |x| && n <= |x|
    ensures var rows := CentredRows(x, length);
            var p := Combine(w, rows, length, |rows|);
            Times(QuadraticTo(w, x, length, n), length as real) == WeightedDots(p, w, rows, length, n)
  {
    hide Over, Times, DotTo, CentredRows, Centred, Combine, RowTo;
    var l := length as real;
    if n == 0 {
      Zero(l);
    } else {
      var rows := CentredRows(x, length);
      var p := Combine(w, rows, length, |rows|);
      QuadraticIsDot(w, x, length, n - 1);
      RowIsDot(w, x, length, n - 1, |x|);
      DotOfCombination(rows[n - 1], w, rows, length, |rows|);
      DotSymmetric(rows[n - 1], p, length);
      var before, row := QuadraticTo(w, x, length, n - 1), RowTo(w, x, length, n - 1, |x|);
      Distribute(l, before, row);
      Symmetric(l, before);
      Symmetric(l, row);
      Symmetric(l, before + row);
    }
  }

  /** The portfolio variance is the mean square of the weighted centred series, so never negative. */
  lemma VarianceIsMeanSquare(w: Series, x: seq<Series>, length: nat)
    requires Shaped(x, length) && length > 0 && |w| == |x|
    ensures var p := Combine(w, CentredRows(x, length), length, |x|);
            && PortfolioVariance(w, x, length) == Over(DotTo(p, p, length), length)
            && PortfolioVariance(w, x, length) >= 0.0
  {
    hide Over, Times, DotTo, CentredRows, Combine, QuadraticTo, WeightedDots;
    var rows := CentredRows(x, length);
    var p := Combine(w, rows, length, |rows|);
    QuadraticIsDot(w, x, length, |x|);
    DotOfCombination(p, w, rows, length, |rows|);
    DotSelfNonNegative(p, length);
    OverIs(PortfolioVariance(w, x, length), DotTo(p, p, length), length);
    OverTimes(DotTo(p, p, length), length);
  }

  // ---------------------------------------------------------------------------
  // The variance of the weighted return series
  // ---------------------------------------------------------------------------

  ghost function WeightedMeans(w: Series, x: seq<Series>, length: nat, n: nat): real
    requires n <= |w| && n <= |x| && Shaped(x, length) && length > 0
  {
    if n == 0 then 0.0 else WeightedMeans(w, x, length, n - 1) + Times(w[n - 1], Mean(x[n - 1]))
  }

  lemma MeanStep(before: real, x: real, s: real, mean: real, length: real)
    requires s == Times(mean, length)
    ensures Times(before, length) + Times(x, s) == Times(before + Times(x, mean), length)
  {
    assert x * s == x * mean * length;
  }

  /** The mean of the weighted series is the weighted sum of the means. */
  lemma {:induction false} MeanOfCombination(w: Series, x: seq<Series>, length: nat, n: nat)
    requires n <= |w| && n <= |x| && Shaped(x, length) && length > 0
    ensures SumTo(Combine(w, x, length, n), length) == Times(WeightedMeans(w, x, length, n), length as real)
  {
    hide Times, SumTo, Over;
    var z := Combine(w, x, length, n);
    if n == 0 {
      SumZero(z, length);
      Zero(length as real);
    } else {
      MeanOfCombination(w, x, length, n - 1);
      CombineOneMore(w, x, length, n);
      hide Combine;
      SumPlus(Combine(w, x, length, n - 1), w[n - 1], x[n - 1], z, length);
      OverTimes(SumTo(x[n - 1], length), length);
      MeanStep(WeightedMeans(w, x, length, n - 1), w[n - 1], SumTo(x[n - 1], length), Mean(x[n - 1]), length as real);
    }
  }

  lemma {:induction false} CentredTerm(w: Series, x: seq<Series>, length: nat, t: nat, n: nat)
    requires n <= |w| && n <= |x| && Shaped(x, length) && length > 0 && t < length
    ensures CombineAt(w, CentredRows(x, length), length, t, n)
         == CombineAt(w, x, length, t, n) - WeightedMeans(w, x, length, n)
  {
    hide Times, Mean;
    if n > 0 {
      CentredTerm(w, x, length, t, n - 1);
      var m := Mean(x[n - 1]);
      assert CentredRows(x, length)[n - 1][t] == x[n - 1][t] - m;
      Distribute(w[n - 1], x[n - 1][t] - m, m);
    }
  }

  /**
   The quadratic form of the covariance matrix in the weights is the population variance of the
   weighted return series, hence never negative.
   */
  lemma PortfolioVarianceIsVariance(w: Series, x: seq<Series>, length: nat)
    requires Shaped(x, length) && length > 0 && |w| == |x|
    ensures PortfolioVariance(w, x, length) == Variance(Combine(w, x, length, |x|))
    ensures PortfolioVariance(w, x, length) >= 0.0
  {
    hide Times, Over, SumTo, DotTo, PortfolioVariance, WeightedMeans, CombineAt, CentredRows;
    var rows := CentredRows(x, length);
    var p, z := Combine(w, rows, length, |x|), Combine(w, x, length, |x|);
    VarianceIsMeanSquare(w, x, length);
    MeanOfCombination(w, x, length, |x|);
    OverIs(WeightedMeans(w, x, length, |x|), SumTo(z, length), length);
    forall t | 0 <= t < length ensures p[t] == Centred(z)[t] {
      CentredTerm(w, x, length, t, |x|);
      assert p[t] == CombineAt(w, rows, length, t, |x|) && z[t] == CombineAt(w, x, length, t, |x|);
      assert Centred(z)[t] == z[t] - Mean(z) && Mean(z) == WeightedMeans(w, x, length, |x|);
    }
    assert p == Centred(z);
  }

  // ---------------------------------------------------------------------------
  // Diversification never costs
  // ---------------------------------------------------------------------------

  /** Each holding's weight times its own deviation, added up as if nothing were diversified. */
  ghost function Undiversified(w: Series, deviations: Series, n: nat): (total: real)
    requires n <= |w| && n <= |deviations|
  {
    if n == 0 then 0.0 else Undiversified(w, deviations, n - 1) + Times(RealAbs(w[n - 1]), deviations[n - 1])
  }

  /** `deviations` are the square roots of the diagonal of the covariance matrix. */
  ghost predicate AreDeviations(deviations: Series, x: seq<Series>, length: nat)
    requires Shaped(x, length) && length > 0
  {
    && |deviations| == |x|
    && forall i :: 0 <= i < |x| ==> deviations[i] >= 0.0 && Times(deviations[i], deviations[i]) == Variance(x[i])
  }

  lemma AbsTimes(x: real)
    ensures RealAbs(x) >= 0.0 && Times(RealAbs(x), RealAbs(x)) == Times(x, x)
  {
  }

  lemma {:induction false} UndiversifiedNonNegative(w: Series, deviations: Series, n: nat)
    requires n <= |w| && n <= |deviations| && forall i :: 0 <= i < n ==> deviations[i] >= 0.0
    ensures Undiversified(w, deviations, n) >= 0.0
  {
    hide Times, RealAbs;
    if n > 0 {
      UndiversifiedNonNegative(w, deviations, n - 1);
      AbsTimes(w[n - 1]);
      NonNegative(RealAbs(w[n - 1]), deviations[n - 1]);
    }
  }

  lemma DotOfSum(u: Series, c: real, v: Series, z: Series, n: nat)
    requires n <= |u| && n <= |v| && n <= |z|
    requires forall t :: 0 <= t < n ==> z[t] == u[t] + Times(c, v[t])
    ensures DotTo(z, z, n) == DotTo(u, u, n) + 2.0 * Times(c, DotTo(u, v, n)) + Times(Times(c, c), DotTo(v, v, n))
  {
    hide Times, DotTo;
    DotPlus(z, u, c, v, z, n);
    DotSymmetric(z, u, n);
    DotSymmetric(z, v, n);
    DotPlus(u, u, c, v, z, n);
    DotPlus(v, u, c, v, z, n);
    DotSymmetric(u, v, n);
    Distribute(c, DotTo(u, v, n), Times(c, DotTo(v, v, n)));
    Associative(c, c, DotTo(v, v, n));
  }

  lemma AbsProductBound(c: real, v: real, bound: real)
    requires v <= bound && 0.0 - v <= bound
    ensures Times(c, v) <= Times(RealAbs(c), bound)
  {
    if c >= 0.0 {
      Monotone(v, bound, c);
    } else {
      Monotone(0.0 - v, bound, 0.0 - c);
    }
  }

  lemma CommonFactor(l: real, b: real, d: real)
    ensures Times(Times(l, Times(b, b)), Times(l, Times(d, d))) == Times(Times(l, Times(b, d)), Times(l, Times(b, d)))
  {
    hide Times;
    SquareOfProduct(l, Times(b, d));
    SquareOfProduct(b, d);
    Symmetric(l, Times(b, b));
    Symmetric(l, Times(d, d));
    Exchange(Times(b, b), Times(d, d), l, l);
  }

  lemma ExpandTriangle(l: real, b: real, a: real, d: real)
    ensures Times(l, Times(b + Times(a, d), b + Times(a, d)))
         == Times(l, Times(b, b)) + 2.0 * Times(a, Times(l, Times(b, d))) + Times(Times(a, a), Times(l, Times(d, d)))
  {
    SquareOfSum(b, Times(a, d));
    SquareOfProduct(a, d);
    var x, y, z := b * b, b * (a * d), (a * a) * (d * d);
    assert l * (x + 2.0 * y + z) == l * x + 2.0 * (l * y) + l * z;
    assert l * (b * (a * d)) == a * (l * (b * d));
    assert l * ((a * a) * (d * d)) == (a * a) * (l * (d * d));
  }

  /** From squared bounds on two series and the Cauchy-Schwarz inequality, the bound on their weighted sum. */
  lemma Triangle(uu: real, uv: real, vv: real, c: real, big: real, dev: real, length: real)
    requires length > 0.0 && big >= 0.0 && dev >= 0.0
    requires 0.0 <= uu <= Times(length, Times(big, big)) && vv == Times(length, Times(dev, dev))
    requires Times(uv, uv) <= Times(uu, vv)
    ensures var total := big + Times(RealAbs(c), dev);
            uu + 2.0 * Times(c, uv) + Times(Times(c, c), vv) <= Times(length, Times(total, total))
  {
    hide Times, RealAbs;
    var bound := Times(length, Times(big, dev));
    NonNegative(big, dev);
    NonNegative(length, Times(big, dev));
    Square(dev);
    NonNegative(length, Times(dev, dev));
    Monotone(uu, Times(length, Times(big, big)), vv);
    CommonFactor(length, big, dev);
    RootBound(uv, bound);
    AbsProductBound(c, uv, bound);
    AbsTimes(c);
    ExpandTriangle(length, big, RealAbs(c), dev);
  }

  lemma {:induction false} PrefixBound(w: Series, x: seq<Series>, length: nat, deviations: Series, n: nat)
    requires Shaped(x, length) && length > 0 && |w| == |x| && n <= |x|
    requires AreDeviations(deviations, x, length)
    ensures var p, total := Combine(w, CentredRows(x, length), length, n), Undiversified(w, deviations, n);
            DotTo(p, p, length) <= Times(length as real, Times(total, total))
  {
    hide Times, DotTo, Over, RealAbs, CentredRows, Centred;
    var l, rows := length as real, CentredRows(x, length);
    var p := Combine(w, rows, length, n);
    if n == 0 {
      DotZero(p, p, length);
      Zero(0.0);
      Zero(l);
    } else {
      CombineOneMore(w, rows, length, n);
      hide Combine;
      var u, v := Combine(w, rows, length, n - 1), rows[n - 1];
      DotOfSum(u, w[n - 1], v, p, length);
      PrefixBound(w, x, length, deviations, n - 1);
      UndiversifiedNonNegative(w, deviations, n - 1);
      CauchySchwarz(u, v, length);
      DotSelfNonNegative(u, length);
      OverTimes(DotTo(v, v, length), length);
      Symmetric(l, Variance(x[n - 1]));
      Triangle(DotTo(u, u, length), DotTo(u, v, length), DotTo(v, v, length), w[n - 1],
               Undiversified(w, deviations, n - 1), deviations[n - 1], l);
    }
  }

  lemma CancelLength(variance: real, bound: real, length: real)
    requires length > 0.0 && Times(variance, length) <= Times(length, bound)
    ensures variance <= bound
  {
    if variance > bound {
      Positive(variance - bound, length);
    }
  }

  /**
   The portfolio variance is at most the square of the undiversified sum, so the diversified
   value at risk never exceeds the undiversified one.
   */
  lemma DiversifiedNeverExceeds(w: Series, x: seq<Series>, length: nat, deviations: Series)
    requires Shaped(x, length) && length > 0 && |w| == |x| && AreDeviations(deviations, x, length)
    ensures var total := Undiversified(w, deviations, |x|);
            total >= 0.0 && PortfolioVariance(w, x, length) <= Times(total, total)
  {
    var total := Undiversified(w, deviations, |x|);
    UndiversifiedNonNegative(w, deviations, |x|);
    hide Times, PortfolioVariance, DotTo, Combine, Undiversified, Over, CentredRows;
    var p := Combine(w, CentredRows(x, length), length, |x|);
    PrefixBound(w, x, length, deviations, |x|);
    VarianceIsMeanSquare(w, x, length);
    OverTimes(DotTo(p, p, length), length);
    CancelLength(PortfolioVariance(w, x, length), Times(total, total), length as real);
  }
}
