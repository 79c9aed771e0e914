/**
 Valuation adds the open positions up in the iteration order of a hash table and checks every
 partial sum, so whether it overflows can depend on that order. Two totals decide which tables are
 valued in every order, and which in some order.
 */
module ValuationOrder {
  import opened Wrappers
  import opened MachineWords
  import opened FinancialMath
  import opened SortedKeys
  import opened TableTotals
  import opened PortfolioLedger
  import opened LedgerConservation

  /** What a position is worth beyond its cost. */
  function GainOf(p: Position): int {
    MarkOf(p) - CostOf(p)
  }

  /** The gain of a position that has lost, and nothing for one that has not. */
  function LossOf(p: Position): int {
    if GainOf(p) < 0 then GainOf(p) else 0
  }

  /** A position with a marked value that fits, neither it nor the cost negative. */
  ghost predicate Markable(p: Position) {
    Notional(p.lastMark, p.quantity).Some? && MarkOf(p) >= 0 && CostOf(p) >= 0
  }

  ghost predicate AllMarkable(positions: map<string, Position>) {
    forall k :: k in positions ==> Markable(positions[k])
  }

  ghost predicate Covers(positions: map<string, Position>, order: seq<string>) {
    forall k :: k in order ==> k in positions
  }

  /** The gains of the first `n` positions along an order. */
  ghost function GainSoFar(positions: map<string, Position>, order: seq<string>, n: nat): int
    requires Covers(positions, order) && n <= |order|
  {
    TotalAlong(order[..n], positions, GainOf)
  }

  // ---------------------------------------------------------------------------
  // One order
  // ---------------------------------------------------------------------------

  lemma {:induction false} GainIsMarkLessCost(positions: map<string, Position>, order: seq<string>)
    requires Covers(positions, order)
    ensures TotalAlong(order, positions, GainOf)
         == TotalAlong(order, positions, MarkOf) - TotalAlong(order, positions, CostOf)
  {
    hide Notional;
    if order != [] {
      assert order[|order| - 1] in order;
      GainIsMarkLessCost(positions, order[..|order| - 1]);
    }
  }

  /** One more position is added if and only if neither running sum leaves 64 bits. */
  lemma AccumulateOneIff(soFar: Marks, p: Position)
    requires Markable(p) && soFar.marked >= 0 && soFar.unrealized <= soFar.marked
    ensures AccumulateOne(soFar, p).Some?
       <==> soFar.marked + MarkOf(p) < TWO63 && soFar.unrealized + GainOf(p) >= -TWO63
  {
    hide Notional;
  }

  /** A traversal succeeds if and only if the marked total fits and no partial sum of gains falls too low. */
  lemma {:induction false} AccumulateIff(positions: map<string, Position>, order: seq<string>)
    requires Covers(positions, order) && AllMarkable(positions)
    ensures Accumulate(positions, order).Some?
       <==> && TotalAlong(order, positions, MarkOf) < TWO63
            && forall n :: 0 <= n <= |order| ==> GainSoFar(positions, order, n) >= -TWO63
  {
    hide Notional, AccumulateOne;
    if order == [] {
      assert order[..0] == [];
      assert GainSoFar(positions, order, 0) == 0;
    } else {
      var n := |order| - 1;
      var front, last := order[..n], order[n];
      assert last in order && order[..|order|] == order;
      AccumulateIff(positions, front);
      assert forall i :: 0 <= i <= n ==> front[..i] == order[..i];
      assert forall i :: 0 <= i <= n ==> GainSoFar(positions, front, i) == GainSoFar(positions, order, i);
      TotalAlongSign(front, positions, MarkOf);
      TotalAlongSign(front, positions, CostOf);
      GainIsMarkLessCost(positions, front);
      assert GainSoFar(positions, order, n + 1) == TotalAlong(front, positions, GainOf) + GainOf(positions[last]);
      if Accumulate(positions, front).Some? {
        AccumulateIsTotal(positions, front);
        AccumulateOneIff(Accumulate(positions, front).value, positions[last]);
      }
    }
  }

  /** The marked total and the equity fit into 64 bits. */
  ghost predicate WorthFits(cash: Money, positions: map<string, Position>) {
    Total(positions, MarkOf) < TWO63 && FitsI64(cash + Total(positions, MarkOf))
  }

  lemma ValuedIff(before: Valuation, cash: Money, positions: map<string, Position>, h: HashOrder)
    requires AllMarkable(positions)
    ensures Covers(positions, h(positions.Keys))
    ensures ValueState(before, cash, positions, h).Some?
       <==> && WorthFits(cash, positions)
            && forall n :: 0 <= n <= |h(positions.Keys)| ==> GainSoFar(positions, h(positions.Keys), n) >= -TWO63
  {
    hide Accumulate, GainSoFar, Markable;
    var order := h(positions.Keys);
    assert Lists(order, positions.Keys);
    AccumulateIff(positions, order);
    TotalAlongIsTotal(order, positions.Keys, positions, MarkOf);
    if Accumulate(positions, order).Some? {
      AccumulateIsTotal(positions, order);
    }
  }

  /** Two orders that succeed give the same valuation. */
  lemma ValuationIsUnique(before: Valuation, cash: Money, positions: map<string, Position>, h: HashOrder, h': HashOrder)
    requires ValueState(before, cash, positions, h).Some? && ValueState(before, cash, positions, h').Some?
    ensures ValueState(before, cash, positions, h) == ValueState(before, cash, positions, h')
  {
    hide Accumulate;
    var order, order' := h(positions.Keys), h'(positions.Keys);
    assert Lists(order, positions.Keys) && Lists(order', positions.Keys);
    AccumulateIsTotal(positions, order);
    AccumulateIsTotal(positions, order');
    TotalAlongIsTotal(order, positions.Keys, positions, MarkOf);
    TotalAlongIsTotal(order', positions.Keys, positions, MarkOf);
    TotalAlongIsTotal(order, positions.Keys, positions, CostOf);
    TotalAlongIsTotal(order', positions.Keys, positions, CostOf);
  }

  // ---------------------------------------------------------------------------
  // Every order, and some order
  // ---------------------------------------------------------------------------

  ghost function Losers(positions: map<string, Position>): set<string> {
    set k | k in positions && GainOf(positions[k]) < 0
  }

  /** Nothing falls lower than all losses together. */
  lemma LossesBound(positions: map<string, Position>, order: seq<string>, n: nat)
    requires Covers(positions, order) && n <= |order|
    ensures GainSoFar(positions, order, n) >= TotalAlong(order, positions, LossOf)
  {
    hide MarkOf;
    assert order == order[..n] + order[n..];
    TotalAlongConcat(order[..n], order[n..], positions, LossOf);
    TotalAlongSign(order[n..], positions, LossOf);
    TotalAlongAtMost(order[..n], positions, LossOf, GainOf);
  }

  /** With the losers first, the sum does fall as low as all losses together. */
  lemma LosersFirst(positions: map<string, Position>, losers: seq<string>, others: seq<string>)
    requires Covers(positions, losers + others)
    requires forall k :: k in losers ==> k in positions && GainOf(positions[k]) < 0
    requires forall k :: k in others ==> k in positions && GainOf(positions[k]) >= 0
    ensures GainSoFar(positions, losers + others, |losers|) == TotalAlong(losers + others, positions, LossOf)
  {
    hide MarkOf;
    assert (losers + others)[..|losers|] == losers;
    TotalAlongConcat(losers, others, positions, LossOf);
    TotalAlongSign(others, positions, LossOf);
    TotalAlongAtMost(losers, positions, LossOf, GainOf);
    TotalAlongAtMost(losers, positions, GainOf, LossOf);
  }

  /** With the losers last, the sum falls no lower than where it ends. */
  lemma LosersLast(positions: map<string, Position>, others: seq<string>, losers: seq<string>, n: nat)
    requires Covers(positions, others + losers) && n <= |others + losers|
    requires forall k :: k in losers ==> k in positions && GainOf(positions[k]) < 0
    requires forall k :: k in others ==> k in positions && GainOf(positions[k]) >= 0
    ensures var low := GainSoFar(positions, others + losers, n);
            low >= 0 || low >= TotalAlong(others + losers, positions, GainOf)
  {
    hide MarkOf;
    var order := others + losers;
    assert order == order[..n] + order[n..];
    TotalAlongConcat(order[..n], order[n..], positions, GainOf);
    if n <= |others| {
      assert order[..n] == others[..n];
      TotalAlongSign(others[..n], positions, GainOf);
    } else {
      assert order[n..] == losers[n - |others|..];
      TotalAlongSign(order[n..], positions, GainOf);
    }
  }

  /** Valuation succeeds in every order if and only if the worth fits and all losses together do. */
  lemma ValuedInEveryOrderIff(before: Valuation, cash: Money, positions: map<string, Position>)
    requires AllMarkable(positions)
    ensures (forall h: HashOrder :: ValueState(before, cash, positions, h).Some?)
       <==> WorthFits(cash, positions) && Total(positions, LossOf) >= -TWO63
  {
    hide ValueState, GainSoFar, GainOf, LossOf, WorthFits, Markable;
    var keys := positions.Keys;
    forall h: HashOrder | WorthFits(cash, positions) && Total(positions, LossOf) >= -TWO63
      ensures ValueState(before, cash, positions, h).Some?
    {
      ValuedIff(before, cash, positions, h);
      assert Lists(h(keys), keys);
      TotalAlongIsTotal(h(keys), keys, positions, LossOf);
      forall n | 0 <= n <= |h(keys)| ensures GainSoFar(positions, h(keys), n) >= -TWO63 {
        LossesBound(positions, h(keys), n);
      }
    }
    if forall h: HashOrder :: ValueState(before, cash, positions, h).Some? {
      var h := VisitFirst(Losers(positions));
      var losers, others := Sorted(keys * Losers(positions)), Sorted(keys - Losers(positions));
      assert ValueState(before, cash, positions, h).Some?;
      ValuedIff(before, cash, positions, h);
      assert h(keys) == losers + others && Lists(h(keys), keys);
      LosersFirst(positions, losers, others);
      TotalAlongIsTotal(h(keys), keys, positions, LossOf);
      assert GainSoFar(positions, h(keys), |losers|) >= -TWO63;
    }
  }

  /** Valuation succeeds in some order if and only if the worth and the unrealized profit fit. */
  lemma ValuedInSomeOrderIff(before: Valuation, cash: Money, positions: map<string, Position>)
    requires AllMarkable(positions)
    ensures (exists h: HashOrder :: ValueState(before, cash, positions, h).Some?)
       <==> WorthFits(cash, positions) && Total(positions, GainOf) >= -TWO63
  {
    hide ValueState, GainSoFar, GainOf, WorthFits, Markable;
    var keys := positions.Keys;
    if h: HashOrder :| ValueState(before, cash, positions, h).Some? {
      ValuedIff(before, cash, positions, h);
      assert Lists(h(keys), keys);
      TotalAlongIsTotal(h(keys), keys, positions, GainOf);
      WholeOrder(positions, h(keys));
    }
    if WorthFits(cash, positions) && Total(positions, GainOf) >= -TWO63 {
      var h := VisitFirst(keys - Losers(positions));
      var others, losers := Sorted(keys * (keys - Losers(positions))), Sorted(keys - (keys - Losers(positions)));
      ValuedIff(before, cash, positions, h);
      assert h(keys) == others + losers && Lists(h(keys), keys);
      TotalAlongIsTotal(h(keys), keys, positions, GainOf);
      forall n | 0 <= n <= |h(keys)| ensures GainSoFar(positions, h(keys), n) >= -TWO63 {
        LosersLast(positions, others, losers, n);
      }
      assert ValueState(before, cash, positions, h).Some?;
    }
  }

  lemma WholeOrder(positions: map<string, Position>, order: seq<string>)
    requires Covers(positions, order)
    ensures GainSoFar(positions, order, |order|) == TotalAlong(order, positions, GainOf)
  {
    assert order[..|order|] == order;
  }
}
