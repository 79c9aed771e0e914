/**
 The multi-asset part of the risk engine as an object: return windows pushed one observation at a
 time, the covariance matrix rebuilt in loops, and the diversified value at risk recomputed.
 */
module RiskEngines {
  import opened MachineWords
  import opened SortedKeys
  import opened ReturnStatistics
  import opened AssetReturns

  /** `sqrt` returns the non-negative square root of every non-negative number. */
  ghost predicate IsSquareRoot(sqrt: real -> real) {
    forall v {:trigger sqrt(v)} :: v >= 0.0 ==> sqrt(v) >= 0.0 && sqrt(v) * sqrt(v) == v
  }

  class RiskEngine {
    const m_varWindow: nat
    var m_assetStates: States
    var m_assetOrder: seq<string>
    var m_covMatrix: seq<real>
    var m_multiAssetMode: bool
    var m_returnStdDev: real
    var m_currentVaR95: real

    /** The matrix belongs to the return windows now held. */
    ghost predicate MatrixIsCurrent()
      reads this
    {
      && m_assetOrder == AssetOrder(m_assetStates)
      && (m_assetOrder == [] ==> m_covMatrix == [])
      && (m_assetOrder != [] ==>
            IsCovarianceMatrix(m_covMatrix, SharedWindow(m_assetStates), SharedLength(m_assetStates)))
    }

    constructor (varWindow: nat)
      ensures m_varWindow == varWindow && m_assetStates == map[] && MatrixIsCurrent()
      ensures m_returnStdDev == 0.0 && m_currentVaR95 == 0.0
    {
      m_varWindow := varWindow;
      m_assetStates, m_assetOrder, m_covMatrix := map[], [], [];
      m_multiAssetMode := false;
      m_returnStdDev, m_currentVaR95 := 0.0, 0.0;
      new;
      assert Participants(m_assetStates) == {};
    }

    method PushAssetReturn(o: Observation, totalEquity: real, h: HashOrder, sqrt: real -> real)
      requires IsSquareRoot(sqrt)
      modifies this
      ensures m_assetStates == ObserveIn(old(m_assetStates), o, m_varWindow)
      ensures m_multiAssetMode && MatrixIsCurrent()
      ensures if totalEquity > 0.0 && m_assetOrder != [] then
                && m_returnStdDev >= 0.0
                && Times(m_returnStdDev, m_returnStdDev)
                   == PortfolioVariance(Weights(m_assetStates, totalEquity), SharedWindow(m_assetStates),
                                        SharedLength(m_assetStates))
                && m_currentVaR95 == ValueAtRisk(m_returnStdDev, totalEquity)
              else
                m_returnStdDev == old(m_returnStdDev) && m_currentVaR95 == old(m_currentVaR95)
    {
      hide IsCovarianceMatrix, PortfolioVariance, Weights, SharedWindow, SharedLength, AssetOrder, Times, IsSquareRoot;
      hide ValueAtRisk;
      m_multiAssetMode := true;
      var state := StateOf(m_assetStates, o.symbol);
      state := state.(positionValue := o.positionValue);
      if state.prevPriceValid && state.prevPrice > 0.0 {
        var ret := (o.closingPrice - state.prevPrice) / state.prevPrice;
        var window := state.returnWindow + [ret];
        if |window| > m_varWindow {
          window := window[1..];
        }
        state := state.(returnWindow := window);
      }
      state := state.(prevPrice := o.closingPrice, prevPriceValid := true);
      m_assetStates := m_assetStates[o.symbol := state];
      RebuildCovMatrix(h);
      if totalEquity > 0.0 {
        UpdateDiversifiedVaR(totalEquity, sqrt);
      }
    }

    method RebuildCovMatrix(h: HashOrder)
      modifies this`m_assetOrder, this`m_covMatrix
      ensures MatrixIsCurrent()
    {
      CollectAssetOrder(h);
      if m_assetOrder == [] {
        m_covMatrix := [];
        return;
      }
      var x := TakeSharedWindow();
      FillCovMatrix(x, SharedLength(m_assetStates));
    }

    /** Visits the table in its own order, then sorts, so that the order does not show. */
    method CollectAssetOrder(h: HashOrder)
      modifies this`m_assetOrder
      ensures m_assetOrder == AssetOrder(m_assetStates)
    {
      var keys := h(m_assetStates.Keys);
      assert Lists(keys, m_assetStates.Keys);
      var collected: set<string>, i := {}, 0;
      while i < |keys|
        invariant 0 <= i <= |keys|
        invariant forall k :: k in collected <==> k in keys[..i] && |m_assetStates[k].returnWindow| >= 2
      {
        assert keys[i] in keys && keys[..i + 1] == keys[..i] + [keys[i]];
        if |m_assetStates[keys[i]].returnWindow| >= 2 {
          collected := collected + {keys[i]};
        }
        i := i + 1;
      }
      assert keys[..i] == keys;
      assert collected == Participants(m_assetStates);
      m_assetOrder := Sorted(collected);
    }

    method ShortestWindow() returns (minLen: nat)
      requires m_assetOrder == AssetOrder(m_assetStates) && m_assetOrder != []
      ensures minLen == SharedLength(m_assetStates)
    {
      var order, states := m_assetOrder, m_assetStates;
      assert forall k :: k in order ==> k in states;
      minLen := ShortestOf(states, order);
    }

    static method ShortestOf(states: States, order: seq<string>) returns (minLen: nat)
      requires order != [] && forall k :: k in order ==> k in states
      ensures minLen == MinLength(states, order)
    {
      hide MinLength;
      assert order[0] in order && order[..1] == [order[0]];
      MinLengthOfOne(states, order[0]);
      minLen := |states[order[0]].returnWindow|;
      for i := 1 to |order|
        invariant forall k :: k in order[..i] ==> k in states
        invariant minLen == MinLength(states, order[..i])
      {
        MinLengthStep(states, order, i);
        var n := |states[order[i]].returnWindow|;
        if n < minLen {
          minLen := n;
        }
      }
      assert order[..|order|] == order;
    }

    method TakeSharedWindow() returns (x: seq<Series>)
      requires m_assetOrder == AssetOrder(m_assetStates) && m_assetOrder != []
      ensures x == SharedWindow(m_assetStates)
    {
      hide SharedLength, AssetOrder;
      var minLen := ShortestWindow();
      x := [];
      var i := 0;
      while i < |m_assetOrder|
        invariant 0 <= i <= |m_assetOrder| && |x| == i
        invariant forall j :: 0 <= j < i ==> x[j] == SharedWindow(m_assetStates)[j]
      {
        assert m_assetOrder[i] in m_assetOrder;
        x := x + [Last(m_assetStates[m_assetOrder[i]].returnWindow, minLen)];
        i := i + 1;
      }
    }

    method MeanOf(series: Series) returns (mean: real)
      requires |series| > 0
      ensures mean == Mean(series)
    {
      var sum, t := 0.0, 0;
      while t < |series|
        invariant 0 <= t <= |series|
        invariant sum == SumTo(series, t)
      {
        sum := sum + series[t];
        t := t + 1;
      }
      mean := sum / |series| as real;
    }

    method CovarianceOf(a: Series, meanA: real, b: Series, meanB: real) returns (cov: real)
      requires |a| == |b| > 0 && meanA == Mean(a) && meanB == Mean(b)
      ensures cov == Covariance(a, b)
    {
      hide Mean;
      cov := 0.0;
      var t := 0;
      while t < |a|
        invariant 0 <= t <= |a|
        invariant cov == DotTo(Centred(a), Centred(b), t)
      {
        cov := cov + Times(a[t] - meanA, b[t] - meanB);
        t := t + 1;
      }
      cov := Over(cov, |a|);
    }

    /** Fills the upper triangle and mirrors it. */
    method FillCovMatrix(x: seq<Series>, length: nat)
      requires |x| > 0 && length > 0 && Shaped(x, length)
      modifies this`m_covMatrix
      ensures IsCovarianceMatrix(m_covMatrix, x, length)
    {
      hide Index, Covariance, Mean;
      var n := |x|;
      var means, i := [], 0;
      while i < n
        invariant 0 <= i <= n && |means| == i
        invariant forall k :: 0 <= k < i ==> means[k] == Mean(x[k])
      {
        var mean := MeanOf(x[i]);
        means := means + [mean];
        i := i + 1;
      }
      m_covMatrix := seq(n * n, _ => 0.0);
      i := 0;
      while i < n
        invariant 0 <= i <= n && |m_covMatrix| == n * n
        invariant FilledTo(x, length, i, i)
      {
        var j := i;
        assert FilledTo(x, length, i, j);
        while j < n
          invariant i <= j <= n && |m_covMatrix| == n * n
          invariant FilledTo(x, length, i, j)
        {
          var cov := CovarianceOf(x[i], means[i], x[j], means[j]);
          Store(x, length, i, j, cov);
          j := j + 1;
        }
        i := i + 1;
      }
    }

    /** The pairs whose smaller index is below `i`, and those of row `i` up to `j`, hold their covariance. */
    ghost predicate FilledTo(x: seq<Series>, length: nat, i: nat, j: nat)
      requires Shaped(x, length) && length > 0 && |m_covMatrix| == |x| * |x|
      reads this`m_covMatrix
    {
      forall a, b :: 0 <= a < |x| && 0 <= b < |x| && Done(a, b, i, j) ==> EntryIs(m_covMatrix, x, length, a, b)
    }

    static ghost predicate Done(a: nat, b: nat, i: nat, j: nat) {
      a < i || b < i || (a == i && b < j) || (b == i && a < j)
    }

    method Store(x: seq<Series>, length: nat, i: nat, j: nat, cov: real)
      requires Shaped(x, length) && length > 0 && |m_covMatrix| == |x| * |x|
      requires i <= j < |x| && cov == Covariance(x[i], x[j])
      requires FilledTo(x, length, i, j)
      modifies this`m_covMatrix
      ensures |m_covMatrix| == |x| * |x| && FilledTo(x, length, i, j + 1)
    {
      hide Index, Covariance;
      var n := |x|;
      IndexFits(i, j, n);
      IndexFits(j, i, n);
      ghost var before := m_covMatrix;
      m_covMatrix := m_covMatrix[Index(i, j, n) := cov];
      m_covMatrix := m_covMatrix[Index(j, i, n) := cov];
      forall a, b | 0 <= a < n && 0 <= b < n && Done(a, b, i, j + 1) ensures EntryIs(m_covMatrix, x, length, a, b) {
        IndexFits(a, b, n);
        if (a == i && b == j) || (a == j && b == i) {
          CovarianceIsSymmetric(x[i], x[j]);
        } else {
          if Index(a, b, n) == Index(i, j, n) {
            IndexIsUnique(a, b, i, j, n);
          }
          if Index(a, b, n) == Index(j, i, n) {
            IndexIsUnique(a, b, j, i, n);
          }
          assert EntryIs(before, x, length, a, b);
        }
      }
    }

    method UpdateDiversifiedVaR(totalEquity: real, sqrt: real -> real)
      requires MatrixIsCurrent() && totalEquity > 0.0 && IsSquareRoot(sqrt)
      modifies this`m_returnStdDev, this`m_currentVaR95
      ensures m_assetOrder == [] ==> m_returnStdDev == old(m_returnStdDev) && m_currentVaR95 == old(m_currentVaR95)
      ensures m_assetOrder != [] ==>
                && m_returnStdDev >= 0.0
                && Times(m_returnStdDev, m_returnStdDev)
                   == PortfolioVariance(Weights(m_assetStates, totalEquity), SharedWindow(m_assetStates),
                                        SharedLength(m_assetStates))
                && m_currentVaR95 == ValueAtRisk(m_returnStdDev, totalEquity)
    {
      assert m_assetOrder == AssetOrder(m_assetStates);
      if m_assetOrder == [] {
        return;
      }
      assert IsCovarianceMatrix(m_covMatrix, SharedWindow(m_assetStates), SharedLength(m_assetStates));
      hide *;
      var w := BuildWeights(totalEquity);
      ghost var x, length := SharedWindow(m_assetStates), SharedLength(m_assetStates);
      var variance := QuadraticForm(w, x, length);
      PortfolioVarianceIsVariance(w, x, length);
      m_returnStdDev := RootOf(variance, sqrt);
      m_currentVaR95 := ValueAtRisk(m_returnStdDev, totalEquity);
    }

    method BuildWeights(totalEquity: real) returns (w: Series)
      requires m_assetOrder == AssetOrder(m_assetStates) && totalEquity != 0.0
      ensures w == Weights(m_assetStates, totalEquity)
    {
      hide AssetOrder;
      w := [];
      var i := 0;
      while i < |m_assetOrder|
        invariant 0 <= i <= |m_assetOrder| && |w| == i
        invariant forall j :: 0 <= j < i ==> w[j] == Weights(m_assetStates, totalEquity)[j]
      {
        assert m_assetOrder[i] in m_assetOrder;
        w := w + [m_assetStates[m_assetOrder[i]].positionValue / totalEquity];
        i := i + 1;
      }
    }

    method RootOf(variance: real, sqrt: real -> real) returns (root: real)
      requires IsSquareRoot(sqrt) && variance >= 0.0
      ensures root >= 0.0 && Times(root, root) == variance
    {
      root := if variance > 0.0 then sqrt(variance) else 0.0;
    }

    method QuadraticForm(w: Series, ghost x: seq<Series>, ghost length: nat) returns (variance: real)
      requires Shaped(x, length) && length > 0 && |w| == |x| && IsCovarianceMatrix(m_covMatrix, x, length)
      ensures variance == PortfolioVariance(w, x, length)
    {
      hide Times, Covariance, Index;
      var n := |w|;
      variance := 0.0;
      var i := 0;
      while i < n
        invariant 0 <= i <= n
        invariant variance == QuadraticTo(w, x, length, i)
      {
        var j := 0;
        while j < n
          invariant 0 <= j <= n
          invariant variance == QuadraticTo(w, x, length, i) + RowTo(w, x, length, i, j)
        {
          assert EntryIs(m_covMatrix, x, length, i, j);
          IndexFits(i, j, n);
          variance := variance + Times(Times(w[i], m_covMatrix[Index(i, j, n)]), w[j]);
          j := j + 1;
        }
        i := i + 1;
      }
    }
  }
}
