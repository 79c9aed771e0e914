/** What the reported figures mean: the value at risk in money, and the returns in prices. */
module RiskFigures {
  import opened MachineWords
  import opened SortedKeys
  import opened ReturnStatistics
  import opened AssetReturns

  // ---------------------------------------------------------------------------
  // Returns and windows
  // ---------------------------------------------------------------------------

  /** What one unit of money grows to over some returns. */
  function Growth(changes: Series): real {
    if changes == [] then 1.0 else Growth(changes[..|changes| - 1]) * (1.0 + changes[|changes| - 1])
  }

  lemma ChangeCompounds(before: real, now: real)
    requires before > 0.0
    ensures before * (1.0 + Change(before, now)) == now
  {
    var change := Change(before, now);
    assert change * before == now - before;
  }

  /** Over positive prices, compounding the returns leads from the first price to the last. */
  lemma {:induction false} ReturnsCompound(prices: seq<real>)
    requires prices != [] && forall p :: p in prices ==> p > 0.0
    ensures |Returns(prices)| == |prices| - 1
    ensures prices[0] * Growth(Returns(prices)) == prices[|prices| - 1]
  {
    if |prices| > 1 {
      var front, n := prices[..|prices| - 1], |prices| - 1;
      assert prices[n - 1] in prices && forall p :: p in front ==> p in prices;
      ReturnsCompound(front);
      var changes, change := Returns(front), Change(prices[n - 1], prices[n]);
      assert Returns(prices) == changes + [change];
      assert (changes + [change])[..n - 1] == changes;
      ChangeCompounds(prices[n - 1], prices[n]);
      hide Returns, Change;
      Regroup(prices[0], Growth(changes), 1.0 + change);
    }
  }

  lemma Regroup(a: real, b: real, c: real)
    ensures a * (b * c) == a * b * c
  {
  }

  /**
   The covariance is taken over the symbols with at least two returns, in ascending order, and of
   each the most recent returns, as many as the shortest window has.
   */
  lemma SharedWindowIsRecent(states: States, i: nat, t: nat)
    requires AssetOrder(states) != [] && i < |AssetOrder(states)| && t < SharedLength(states)
    ensures var order, length := AssetOrder(states), SharedLength(states);
            && Ascending(order) && (forall k :: k in order <==> k in states && |states[k].returnWindow| >= 2)
            && order[i] in states && length <= |states[order[i]].returnWindow|
            && (exists k :: k in order && |states[k].returnWindow| == length)
            && SharedWindow(states)[i][t] ==
                 states[order[i]].returnWindow[|states[order[i]].returnWindow| - length + t]
  {
    assert AssetOrder(states)[i] in AssetOrder(states);
    SortedIsAscending(Participants(states));
  }

  // ---------------------------------------------------------------------------
  // Value at risk
  // ---------------------------------------------------------------------------

  /** The money held in each participant. */
  function HeldValues(states: States): (held: Series)
    ensures |held| == |AssetOrder(states)|
  {
    var order := AssetOrder(states);
    seq(|order|, i requires 0 <= i < |order| => assert order[i] in order; states[order[i]].positionValue)
  }

  lemma ScaledTerm(c: real, a: real, b: real, x: real, y: real, cov: real)
    requires a == c * x && b == c * y
    ensures Times(Times(a, cov), b) == Times(c * c, Times(Times(x, cov), y))
  {
    assert c * x * cov * (c * y) == c * c * (x * cov * y) by {
      Regroup(c * x * cov, c, y);
      Regroup(c, c, x * cov * y);
    }
  }

  lemma {:induction false} ScaledRow(c: real, v: Series, w: Series, x: seq<Series>, length: nat, i: nat, n: nat)
    requires Shaped(x, length) && length > 0 && |v| == |w| == |x| && i < |x| && n <= |x|
    requires forall k :: 0 <= k < |w| ==> v[k] == c * w[k]
    ensures RowTo(v, x, length, i, n) == Times(c * c, RowTo(w, x, length, i, n))
  {
    hide Times, Covariance;
    if n == 0 {
      Zero(c * c);
    } else {
      ScaledRow(c, v, w, x, length, i, n - 1);
      var cov := Covariance(x[i], x[n - 1]);
      ScaledTerm(c, v[i], v[n - 1], w[i], w[n - 1], cov);
      Distribute(c * c, RowTo(w, x, length, i, n - 1), Times(Times(w[i], cov), w[n - 1]));
    }
  }

  /** The quadratic form of scaled amounts is scaled by the square. */
  lemma {:induction false} ScaledForm(c: real, v: Series, w: Series, x: seq<Series>, length: nat, n: nat)
    requires Shaped(x, length) && length > 0 && |v| == |w| == |x| && n <= |x|
    requires forall k :: 0 <= k < |w| ==> v[k] == c * w[k]
    ensures QuadraticTo(v, x, length, n) == Times(c * c, QuadraticTo(w, x, length, n))
  {
    hide RowTo, Times;
    if n == 0 {
      Zero(c * c);
    } else {
      ScaledForm(c, v, w, x, length, n - 1);
      ScaledRow(c, v, w, x, length, n - 1, |x|);
      Distribute(c * c, QuadraticTo(w, x, length, n - 1), RowTo(w, x, length, n - 1, |x|));
    }
  }

  /** Weights are shares of the equity: each times the equity is the money held. */
  lemma WeightsAreShares(states: States, totalEquity: real)
    requires totalEquity != 0.0
    ensures var w, held := Weights(states, totalEquity), HeldValues(states);
            |w| == |held| && forall i :: 0 <= i < |w| ==> held[i] == totalEquity * w[i]
  {
    var w, held := Weights(states, totalEquity), HeldValues(states);
    forall i | 0 <= i < |w| ensures held[i] == totalEquity * w[i] {
      DivideThenTimes(held[i], totalEquity);
    }
  }

  lemma DivideThenTimes(x: real, y: real)
    requires y != 0.0
    ensures y * (x / y) == x
  {
  }

  /**
   The value at risk is 1.645 deviations of the money the holdings gain in one period: its square is
   1.645 squared times the variance of the returns summed with the money held in each symbol, which
   is the sum over all pairs of both amounts held times the covariance of their returns.
   */
  lemma ValueAtRiskIsLossDeviation(states: States, totalEquity: real, root: real)
    requires totalEquity > 0.0 && AssetOrder(states) != [] && root >= 0.0
    requires Times(root, root) ==
               PortfolioVariance(Weights(states, totalEquity), SharedWindow(states), SharedLength(states))
    ensures var x, length, held := SharedWindow(states), SharedLength(states), HeldValues(states);
            var risk := ValueAtRisk(root, totalEquity);
            && risk >= 0.0
            && Times(risk, risk) == Times(1.645 * 1.645, PortfolioVariance(held, x, length))
            && PortfolioVariance(held, x, length) == Variance(Combine(held, x, length, |x|))
  {
    var x, length, held := SharedWindow(states), SharedLength(states), HeldValues(states);
    var w := Weights(states, totalEquity);
    WeightsAreShares(states, totalEquity);
    hide *;
    FormOfHeld(totalEquity, held, w, x, length);
    PortfolioVarianceIsVariance(held, x, length);
    RiskSquared(root, totalEquity, PortfolioVariance(w, x, length), PortfolioVariance(held, x, length));
  }

  lemma FormOfHeld(c: real, v: Series, w: Series, x: seq<Series>, length: nat)
    requires Shaped(x, length) && length > 0 && |v| == |w| == |x|
    requires forall k :: 0 <= k < |w| ==> v[k] == c * w[k]
    ensures PortfolioVariance(v, x, length) == Times(c * c, PortfolioVariance(w, x, length))
  {
    ScaledForm(c, v, w, x, length, |x|);
    hide QuadraticTo, Times;
  }

  lemma RiskSquared(root: real, equity: real, variance: real, scaled: real)
    requires Times(root, root) == variance && root >= 0.0 && equity > 0.0
    requires scaled == Times(equity * equity, variance)
    ensures var risk := ValueAtRisk(root, equity);
            risk >= 0.0 && Times(risk, risk) == Times(1.645 * 1.645, scaled)
  {
    var product := root * equity;
    assert product >= 0.0;
    Regroup(1.645, root, equity);
    assert ValueAtRisk(root, equity) == 1.645 * product;
    SquareOfProduct(1.645, product);
    SquareOfProduct(root, equity);
    Symmetric(Times(root, root), Times(equity, equity));
  }
}
