/**
 The per-symbol return windows the covariance is computed over: rolling windows of the most recent
 returns, the symbols that take part, and the window they share.
 */
module AssetReturns {
  import opened MachineWords
  import opened SortedKeys
  import opened ReturnStatistics

  datatype AssetReturnState = AssetReturnState(
    returnWindow: Series,
    prevPrice: real,
    prevPriceValid: bool,
    positionValue: real)

  const NO_RETURNS := AssetReturnState([], 0.0, false, 0.0)

  datatype Observation = Observation(symbol: string, closingPrice: real, positionValue: real)

  type States = map<string, AssetReturnState>

  // ---------------------------------------------------------------------------
  // Rolling windows
  // ---------------------------------------------------------------------------

  /** The last `n` elements, or all of them when there are fewer. */
  function Last(s: Series, n: nat): (last: Series)
    ensures |last| == if |s| <= n then |s| else n
  {
    if |s| <= n then s else s[|s| - n..]
  }

  function Append(window: Series, value: real, n: nat): Series {
    var longer := window + [value];
    if |longer| > n then longer[1..] else longer
  }

  /** The relative change from one price to the next. */
  function Change(before: real, now: real): real
    requires before > 0.0
  {
    (now - before) / before
  }

  function Observe(state: AssetReturnState, o: Observation, n: nat): AssetReturnState {
    AssetReturnState(
      if state.prevPriceValid && state.prevPrice > 0.0
      then Append(state.returnWindow, Change(state.prevPrice, o.closingPrice), n)
      else state.returnWindow,
      o.closingPrice, true, o.positionValue)
  }

  function StateOf(states: States, symbol: string): AssetReturnState {
    if symbol in states then states[symbol] else NO_RETURNS
  }

  function ObserveIn(states: States, o: Observation, n: nat): States {
    states[o.symbol := Observe(StateOf(states, o.symbol), o, n)]
  }

  function ObserveAll(observations: seq<Observation>, n: nat): States {
    if observations == [] then map[]
    else ObserveIn(ObserveAll(observations[..|observations| - 1], n), observations[|observations| - 1], n)
  }

  /** The closing prices of one symbol, in order. */
  function PricesOf(observations: seq<Observation>, symbol: string): seq<real> {
    if observations == [] then []
    else
      var last := observations[|observations| - 1];
      PricesOf(observations[..|observations| - 1], symbol) + if last.symbol == symbol then [last.closingPrice] else []
  }

  /** The changes from each positive price to the next one. */
  function Returns(prices: seq<real>): Series {
    if |prices| < 2 then []
    else
      var before, now := prices[|prices| - 2], prices[|prices| - 1];
      Returns(prices[..|prices| - 1]) + if before > 0.0 then [Change(before, now)] else []
  }

  lemma ReturnsOneMore(prices: seq<real>, price: real)
    ensures Returns(prices + [price]) == Returns(prices) +
              if prices != [] && prices[|prices| - 1] > 0.0 then [Change(prices[|prices| - 1], price)] else []
  {
    assert (prices + [price])[..|prices|] == prices;
  }

  lemma AppendKeepsLast(all: Series, value: real, n: nat)
    ensures Append(Last(all, n), value, n) == Last(all + [value], n)
  {
  }

  lemma OneMorePrice(prices: seq<real>, price: real, n: nat)
    ensures Last(Returns(prices + [price]), n) ==
              if prices != [] && prices[|prices| - 1] > 0.0
              then Append(Last(Returns(prices), n), Change(prices[|prices| - 1], price), n)
              else Last(Returns(prices), n)
  {
    hide Returns, Change, Last, Append;
    ReturnsOneMore(prices, price);
    if prices != [] && prices[|prices| - 1] > 0.0 {
      AppendKeepsLast(Returns(prices), Change(prices[|prices| - 1], price), n);
    } else {
      assert Returns(prices) + [] == Returns(prices);
    }
  }

  /**
   However the observations of different symbols are interleaved, each symbol's window holds its own
   most recent returns, at most `n` of them, in order.
   */
  lemma {:induction false} WindowsHoldRecentReturns(observations: seq<Observation>, symbol: string, n: nat)
    ensures var prices, state := PricesOf(observations, symbol), StateOf(ObserveAll(observations, n), symbol);
            && state.returnWindow == Last(Returns(prices), n)
            && (symbol in ObserveAll(observations, n) <==> prices != [])
            && state.prevPriceValid == (prices != [])
            && (prices != [] ==> state.prevPrice == prices[|prices| - 1])
  {
    if observations != [] {
      var front, last := observations[..|observations| - 1], observations[|observations| - 1];
      WindowsHoldRecentReturns(front, symbol, n);
      hide Returns, Change, Last, Append;
      if last.symbol == symbol {
        var before, prices := PricesOf(front, symbol), PricesOf(observations, symbol);
        assert prices == before + [last.closingPrice];
        OneMorePrice(before, last.closingPrice, n);
        var state := StateOf(ObserveAll(front, n), symbol);
        assert StateOf(ObserveAll(observations, n), symbol) == Observe(state, last, n);
      } else {
        assert PricesOf(observations, symbol) == PricesOf(front, symbol);
      }
    }
  }

  // ---------------------------------------------------------------------------
  // The shared window and the covariance matrix
  // ---------------------------------------------------------------------------

  function Participants(states: States): set<string> {
    set k | k in states && |states[k].returnWindow| >= 2
  }

  /** The symbols with at least two returns, in ascending order. */
  function AssetOrder(states: States): (order: seq<string>)
    ensures forall k :: k in order ==> k in states && |states[k].returnWindow| >= 2
  {
    Sorted(Participants(states))
  }

  function MinLength(states: States, order: seq<string>): (length: nat)
    requires order != [] && forall k :: k in order ==> k in states
    ensures forall k :: k in order ==> length <= |states[k].returnWindow|
    ensures exists k :: k in order && length == |states[k].returnWindow|
  {
    assert order[|order| - 1] in order;
    var n := |states[order[|order| - 1]].returnWindow|;
    if |order| == 1 then n
    else
      var front := order[..|order| - 1];
      assert order == front + [order[|order| - 1]];
      var rest := MinLength(states, front);
      if n < rest then n else rest
  }

  lemma MinLengthOfOne(states: States, symbol: string)
    requires symbol in states
    ensures MinLength(states, [symbol]) == |states[symbol].returnWindow|
  {
  }

  lemma MinLengthStep(states: States, order: seq<string>, i: nat)
    requires 0 < i < |order| && forall k :: k in order ==> k in states
    ensures order[i] in order && (forall k :: k in order[..i + 1] ==> k in states)
    ensures var n, rest := |states[order[i]].returnWindow|, MinLength(states, order[..i]);
            MinLength(states, order[..i + 1]) == if n < rest then n else rest
  {
    assert order[..i + 1][..i] == order[..i];
  }

  function SharedLength(states: States): (length: nat)
    requires AssetOrder(states) != []
    ensures length >= 2
  {
    MinLength(states, AssetOrder(states))
  }

  /** The most recent returns of every participant, as many as the shortest window has. */
  function SharedWindow(states: States): (x: seq<Series>)
    requires AssetOrder(states) != []
    ensures |x| == |AssetOrder(states)| && Shaped(x, SharedLength(states))
  {
    var order, length := AssetOrder(states), SharedLength(states);
    seq(|order|, i requires 0 <= i < |order| => assert order[i] in order; Last(states[order[i]].returnWindow, length))
  }

  /** The covariance matrix, row by row. */
  ghost predicate IsCovarianceMatrix(matrix: seq<real>, x: seq<Series>, length: nat)
    requires Shaped(x, length) && length > 0
  {
    && |matrix| == |x| * |x|
    && forall i, j :: 0 <= i < |x| && 0 <= j < |x| ==> EntryIs(matrix, x, length, i, j)
  }

  ghost predicate EntryIs(matrix: seq<real>, x: seq<Series>, length: nat, i: nat, j: nat)
    requires Shaped(x, length) && length > 0 && i < |x| && j < |x| && |matrix| == |x| * |x|
  {
    IndexFits(i, j, |x|);
    matrix[Index(i, j, |x|)] == Covariance(x[i], x[j])
  }

  function Index(i: nat, j: nat, n: nat): nat {
    i * n + j
  }

  lemma IndexFits(i: nat, j: nat, n: nat)
    requires i < n && j < n
    ensures Index(i, j, n) < n * n
  {
    assert (i + 1) * n <= n * n;
  }

  lemma IndexIsUnique(i: nat, j: nat, k: nat, l: nat, n: nat)
    requires j < n && l < n && Index(i, j, n) == Index(k, l, n)
    ensures i == k && j == l
  {
    DivModUnique(Index(i, j, n), n, i, j);
    DivModUnique(Index(k, l, n), n, k, l);
  }

  lemma MatrixIsSymmetric(matrix: seq<real>, x: seq<Series>, length: nat, i: nat, j: nat)
    requires Shaped(x, length) && length > 0 && IsCovarianceMatrix(matrix, x, length) && i < |x| && j < |x|
    ensures Index(i, j, |x|) < |matrix| && Index(j, i, |x|) < |matrix|
    ensures matrix[Index(i, j, |x|)] == matrix[Index(j, i, |x|)]
  {
    IndexFits(i, j, |x|);
    IndexFits(j, i, |x|);
    assert EntryIs(matrix, x, length, i, j) && EntryIs(matrix, x, length, j, i);
    CovarianceIsSymmetric(x[i], x[j]);
  }

  /** Weights of the participants: the value held over the whole equity, cash included. */
  function Weights(states: States, totalEquity: real): (w: Series)
    requires totalEquity != 0.0
    ensures |w| == |AssetOrder(states)|
  {
    var order := AssetOrder(states);
    seq(|order|, i requires 0 <= i < |order| => assert order[i] in order; states[order[i]].positionValue / totalEquity)
  }

  const Z_95 := 1.645

  /** The loss not exceeded with 95% confidence. */
  function ValueAtRisk(deviation: real, totalEquity: real): real {
    Z_95 * deviation * totalEquity
  }

  /** The value at risk never exceeds what the holdings' own deviations add up to. */
  lemma ValueAtRiskIsDiversified(states: States, totalEquity: real, root: real, deviations: Series)
    requires totalEquity > 0.0 && AssetOrder(states) != []
    requires AreDeviations(deviations, SharedWindow(states), SharedLength(states))
    requires root >= 0.0
    requires Times(root, root) == PortfolioVariance(Weights(states, totalEquity), SharedWindow(states),
        SharedLength(states))
    ensures var w := Weights(states, totalEquity);
            && root <= Undiversified(w, deviations, |w|)
            && ValueAtRisk(root, totalEquity) <= ValueAtRisk(Undiversified(w, deviations, |w|), totalEquity)
  {
    hide Times, PortfolioVariance, Weights, SharedWindow, SharedLength, AssetOrder;
    var w := Weights(states, totalEquity);
    DiversifiedNeverExceeds(w, SharedWindow(states), SharedLength(states), deviations);
    RootBound(root, Undiversified(w, deviations, |w|));
    ScaledBound(root, Undiversified(w, deviations, |w|), totalEquity);
  }

  lemma ScaledBound(a: real, b: real, e: real)
    requires a <= b && e > 0.0
    ensures ValueAtRisk(a, e) <= ValueAtRisk(b, e)
  {
    Monotone(Z_95 * a, Z_95 * b, e);
  }
}
