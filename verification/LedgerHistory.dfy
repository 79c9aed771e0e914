/**
 The counters and the trade log over whole runs: what is recorded there is never taken back, and
 only the average price at which a position was entered can make a logged trade unfit for saving.
 */
module LedgerHistory {
  import opened Wrappers
  import opened MachineWords
  import opened FinancialMath
  import opened SortedKeys
  import opened TableTotals
  import opened PortfolioLedger
  import opened LedgerConservation

  /** What every logged trade has, whatever its entry price. */
  predicate Settled(t: Trade) {
    t.symbol != "" && t.exitPrice > 0 && t.quantity > 0 && t.totalFees >= 0
  }

  ghost predicate Tallied(s: Ledger) {
    && s.totalFees >= 0 && 0 <= s.tradeCount <= MAX_INT && 0 <= s.roundTripCount <= MAX_INT
    && forall t :: t in s.tradeLog ==> Settled(t)
  }

  /** Nothing counted, paid or logged before is taken back. */
  ghost predicate Extends(s: Ledger, s': Ledger) {
    && s.totalFees <= s'.totalFees && s.tradeCount <= s'.tradeCount && s.roundTripCount <= s'.roundTripCount
    && s.tradeLog <= s'.tradeLog
  }

  lemma OpenKeepsTallied(s: Ledger, order: Order, budget: Budget, units: Quantity, h: HashOrder)
    requires Tallied(s) && OpenLong(s, order, budget, units, h).Ok?
    ensures var s' := OpenLong(s, order, budget, units, h).value; Tallied(s') && Extends(s, s')
  {
    hide Notional, AveragePrice, ValueState, EntryAmounts, BudgetAmount;
  }

  lemma AddKeepsTallied(s: Ledger, order: Order, quantity: Quantity, capital: i64, h: HashOrder)
    requires Tallied(s) && AddToLong(s, order, quantity, capital, h).Ok?
    ensures var s' := AddToLong(s, order, quantity, capital, h).value; Tallied(s') && Extends(s, s')
  {
    hide Notional, AveragePrice, ValueState, GrowPosition, OpenLong, AddBudget;
    if order.symbol !in s.positions {
      OpenKeepsTallied(s, order.(timestamp := 0), AddBudget(order.price, quantity, order.fee, capital), quantity, h);
    }
  }

  lemma CloseKeepsTallied(s: Ledger, order: Order, quantity: Quantity, h: HashOrder)
    requires Sound(s) && Tallied(s) && ClosePosition(s, order, quantity, h).Ok?
    ensures var s' := ClosePosition(s, order, quantity, h).value; Tallied(s') && Extends(s, s')
  {
    if order.symbol in s.positions {
      hide Notional, AveragePrice, ValueState, ShrinkPosition, SellSlice;
      var p := s.positions[order.symbol];
      var sold := if quantity > 0 then quantity else p.quantity;
      assert PositionSound(p);
      SliceIsSettled(p, order, sold);
    }
  }

  lemma SliceIsSettled(p: Position, order: Order, sold: Quantity)
    requires PositionSound(p) && 0 < sold <= p.quantity && order.fee >= 0 && order.price > 0 && order.symbol != ""
    requires SellSlice(p, order, sold).Ok?
    ensures Settled(SellSlice(p, order, sold).value.trade)
    ensures SellSlice(p, order, sold).value.trade.entryPrice == p.averageEntry
  {
    hide Notional, AveragePrice, Proportional;
    SellSliceBalances(p, order, sold);
  }

  lemma StepKeepsTallied(s: Ledger, op: Operation, h: HashOrder)
    requires Sound(s) && Tallied(s)
    ensures Tallied(Step(s, op, h)) && Extends(s, Step(s, op, h))
  {
    hide OpenLong, AddToLong, ClosePosition;
    if Apply(s, op, h).Ok? {
      match op
      case Open(order, capital, units) => OpenKeepsTallied(s, order, BudgetOf(capital), units, h);
      case Add(order, quantity, capital) => AddKeepsTallied(s, order, quantity, capital, h);
      case Close(order, quantity) => CloseKeepsTallied(s, order, quantity, h);
      case Mark(symbol, mark) =>
    }
  }

  /** Over every run the counters and fees stay in range and never fall, and the trade log only grows. */
  lemma {:induction false} RunKeepsTallied(s: Ledger, ops: seq<(Operation, HashOrder)>)
    requires Sound(s) && Tallied(s)
    ensures Tallied(Run(s, ops)) && Extends(s, Run(s, ops))
  {
    hide Tallied, Step;
    if ops != [] {
      var front := ops[..|ops| - 1];
      RunKeepsTallied(s, front);
      RunConserves(s, front);
      StepKeepsTallied(Run(s, front), ops[|ops| - 1].0, ops[|ops| - 1].1);
    }
  }

  /** What is logged at some point of a run is still logged after anything that follows. */
  lemma LoggedForGood(ops: seq<(Operation, HashOrder)>, more: seq<(Operation, HashOrder)>)
    ensures Run(INITIAL, ops).tradeLog <= Run(INITIAL, ops + more).tradeLog
  {
    InitialIsSound();
    RunConserves(INITIAL, ops);
    RunKeepsTallied(INITIAL, ops);
    RunAppend(INITIAL, ops, more);
    RunKeepsTallied(Run(INITIAL, ops), more);
  }
}
