/**
 What every run of ledger operations conserves, whatever the roundings of the partial closes and
 whichever operations fail on the way.
 */
module LedgerConservation {
  import opened Wrappers
  import opened MachineWords
  import opened FinancialMath
  import opened SortedKeys
  import opened TableTotals
  import opened PortfolioLedger

  function CostOf(p: Position): int {
    p.costBasis
  }

  function FeeOf(p: Position): int {
    p.entryFee
  }

  function MarkOf(p: Position): int {
    match Notional(p.lastMark, p.quantity)
    case Some(v) => v
    case None => 0
  }

  function PnlOf(t: Trade): int {
    t.realizedPnL
  }

  function FeesOf(t: Trade): int {
    t.totalFees
  }

  /** Cash plus what open positions cost, less what closed trades earned. */
  ghost function Capital(s: Ledger): int {
    s.cash + Total(s.positions, CostOf) + Total(s.positions, FeeOf) - LogTotal(s.tradeLog, PnlOf)
  }

  /** Fees paid that are neither carried by an open position nor reported by a closed trade. */
  ghost function UnallocatedFees(s: Ledger): int {
    s.totalFees - Total(s.positions, FeeOf) - LogTotal(s.tradeLog, FeesOf)
  }

  ghost predicate PositionSound(p: Position) {
    && p.quantity > 0
    && p.costBasis >= 0
    && p.entryFee >= 0
    && p.lastMark > 0
    && AveragePrice(p.costBasis, p.quantity) == Some(p.averageEntry)
  }

  ghost predicate Valued(v: Valuation, cash: Money, positions: map<string, Position>) {
    && v.unrealized == Total(positions, MarkOf) - Total(positions, CostOf)
    && v.totalEquity == cash + Total(positions, MarkOf)
    && (forall k :: k in positions ==> Notional(positions[k].lastMark, positions[k].quantity).Some?)
    && v.totalEquity <= v.maxEquity
    && v.currentDrawdown == Drawdown(v.maxEquity, v.totalEquity)
    && 0.0 <= v.currentDrawdown <= v.maxDrawdown
  }

  ghost predicate Sound(s: Ledger) {
    && s.cash >= 0
    && "" !in s.positions
    && (forall k :: k in s.positions ==> PositionSound(s.positions[k]))
    && Valued(s.valuation, s.cash, s.positions)
  }

  // ---------------------------------------------------------------------------
  // Valuation is exact
  // ---------------------------------------------------------------------------

  lemma {:induction false} AccumulateIsTotal(positions: map<string, Position>, order: seq<string>)
    requires forall k :: k in order ==> k in positions
    requires Accumulate(positions, order).Some?
    ensures var marks := Accumulate(positions, order).value;
            && marks.marked == TotalAlong(order, positions, MarkOf)
            && marks.unrealized == TotalAlong(order, positions, MarkOf) - TotalAlong(order, positions, CostOf)
    ensures forall k :: k in order ==> Notional(positions[k].lastMark, positions[k].quantity).Some?
  {
    if order != [] {
      AccumulateIsTotal(positions, order[..|order| - 1]);
      assert order == order[..|order| - 1] + [order[|order| - 1]];
    }
  }

  /** Whatever order the table is traversed in, a valuation that succeeds is the exact one. */
  lemma ValueStateIsExact(before: Valuation, cash: Money, positions: map<string, Position>, h: HashOrder)
    requires ValueState(before, cash, positions, h).Some?
    requires before.maxDrawdown >= 0.0
    ensures Valued(ValueState(before, cash, positions, h).value, cash, positions)
    ensures ValueState(before, cash, positions, h).value.maxEquity >= before.maxEquity
    ensures ValueState(before, cash, positions, h).value.maxDrawdown >= before.maxDrawdown
  {
    var order := h(positions.Keys);
    assert Lists(order, positions.Keys);
    AccumulateIsTotal(positions, order);
    TotalAlongIsTotal(order, positions.Keys, positions, MarkOf);
    TotalAlongIsTotal(order, positions.Keys, positions, CostOf);
    var v := ValueState(before, cash, positions, h).value;
    DrawdownNonNegative(v.maxEquity, v.totalEquity);
  }

  lemma DrawdownNonNegative(peak: Money, equity: Money)
    requires equity <= peak
    ensures Drawdown(peak, equity) >= 0.0
  {
  }

  // ---------------------------------------------------------------------------
  // One operation
  // ---------------------------------------------------------------------------

  /** What an operation keeps: soundness, capital and unallocated fees; peaks never fall. */
  ghost predicate Conserves(s: Ledger, s': Ledger) {
    && Sound(s')
    && Capital(s') == Capital(s)
    && UnallocatedFees(s') == UnallocatedFees(s)
    && s'.valuation.maxEquity >= s.valuation.maxEquity
    && s'.valuation.maxDrawdown >= s.valuation.maxDrawdown
  }

  lemma NotionalPositive(price: Price, quantity: Quantity)
    requires price > 0 && quantity > 0 && Notional(price, quantity).Some?
    ensures Notional(price, quantity).value >= 0
  {
    MulMono(0, price, quantity);
  }

  lemma EntryAmountsSound(price: Price, fee: Money, budget: Money, units: Quantity)
    requires price > 0 && fee >= 0 && budget >= 0
    requires EntryAmounts(price, fee, budget, units).Ok?
    ensures var entry := EntryAmounts(price, fee, budget, units).value;
            && entry.quantity > 0
            && entry.debit == entry.cost + fee
            && Notional(price, entry.quantity) == Some(entry.cost)
            && entry.debit <= budget
            && (units > 0 ==> entry.quantity == units)
  {
    if units <= 0 {
      var notionalBudget := CheckedSubtract(budget, fee).value;
      var quantity := QuantityForNotional(notionalBudget, price).value;
      FloorBound(notionalBudget * SCALE_FACTOR, price);
      CostWithinNet(price, quantity, notionalBudget);
    }
  }

  lemma CommitEntryConserves(s: Ledger, symbol: string, p: Position, cost: Money, fee: Money,
                             nextCash: Money, nextFees: Money, h: HashOrder)
    requires Sound(s) && PositionSound(p) && symbol != ""
    requires nextCash == s.cash - cost - fee && nextCash >= 0 && nextFees == s.totalFees + fee
    requires if symbol in s.positions
             then && p.costBasis == s.positions[symbol].costBasis + cost
                  && p.entryFee == s.positions[symbol].entryFee + fee
             else p.costBasis == cost && p.entryFee == fee
    requires CommitEntry(s, symbol, p, nextCash, nextFees, h).Ok?
    ensures Conserves(s, CommitEntry(s, symbol, p, nextCash, nextFees, h).value)
  {
    ValueStateIsExact(s.valuation, nextCash, s.positions[symbol := p], h);
    if symbol in s.positions {
      TotalUpdate(s.positions, symbol, p, CostOf);
      TotalUpdate(s.positions, symbol, p, FeeOf);
    } else {
      TotalInsert(s.positions, symbol, p, CostOf);
      TotalInsert(s.positions, symbol, p, FeeOf);
    }
  }

  lemma OpenLongConserves(s: Ledger, order: Order, budget: Budget, units: Quantity, h: HashOrder)
    requires Sound(s) && OpenLong(s, order, budget, units, h).Ok?
    ensures Conserves(s, OpenLong(s, order, budget, units, h).value)
    ensures order.symbol in OpenLong(s, order, budget, units, h).value.positions
    ensures units > 0 ==>
              OpenLong(s, order, budget, units, h).value.positions[order.symbol].quantity == units
  {
    hide Notional, AveragePrice, ValueState, EntryAmounts;
    var available := BudgetAmount(s, budget).value;
    EntryAmountsSound(order.price, order.fee, available, units);
    var entry := EntryAmounts(order.price, order.fee, available, units).value;
    var average := AveragePrice(entry.cost, entry.quantity).value;
    var p := Position(entry.quantity, average, entry.cost, order.price, order.timestamp, order.fee, order.strategyId);
    CommitEntryConserves(s, order.symbol, p, entry.cost, order.fee,
                         s.cash - entry.debit, s.totalFees + order.fee, h);
  }

  lemma GrowPositionSound(p: Position, order: Order, quantity: Quantity, cost: Money)
    requires PositionSound(p) && quantity > 0 && order.fee >= 0 && order.price > 0 && cost >= 0
    requires GrowPosition(p, order, quantity, cost).Ok?
    ensures var grown := GrowPosition(p, order, quantity, cost).value;
            && PositionSound(grown)
            && grown.quantity == p.quantity + quantity
            && grown.costBasis == p.costBasis + cost
            && grown.entryFee == p.entryFee + order.fee
  {
  }

  lemma AddToLongConserves(s: Ledger, order: Order, quantity: Quantity, capitalToCommit: i64, h: HashOrder)
    requires Sound(s) && AddToLong(s, order, quantity, capitalToCommit, h).Ok?
    ensures Conserves(s, AddToLong(s, order, quantity, capitalToCommit, h).value)
    ensures order.symbol in s.positions ==>
              && order.symbol in AddToLong(s, order, quantity, capitalToCommit, h).value.positions
              && AddToLong(s, order, quantity, capitalToCommit, h).value.positions[order.symbol].quantity
                 == s.positions[order.symbol].quantity + quantity
  {
    if order.symbol !in s.positions {
      OpenLongConserves(s, order.(timestamp := 0),
                        AddBudget(order.price, quantity, order.fee, capitalToCommit), quantity, h);
    } else {
      var p := s.positions[order.symbol];
      var cost := Notional(order.price, quantity).value;
      GrowPositionSound(p, order, quantity, cost);
      var grown := GrowPosition(p, order, quantity, cost).value;
      CommitEntryConserves(s, order.symbol, grown, cost, order.fee,
                           s.cash - (cost + order.fee), s.totalFees + order.fee, h);
    }
  }

  /** The slice sold carries its share of cost and fee; its profit is what the cash gained beyond them. */
  lemma SellSliceBalances(p: Position, order: Order, quantity: Quantity)
    requires PositionSound(p) && 0 < quantity <= p.quantity && order.fee >= 0
    requires SellSlice(p, order, quantity).Ok?
    ensures var slice := SellSlice(p, order, quantity).value;
            && 0 <= slice.cost <= p.costBasis
            && 0 <= slice.fee <= p.entryFee
            && slice.netProceeds >= 0
            && slice.trade.realizedPnL == slice.netProceeds - slice.cost - slice.fee
            && slice.trade.totalFees == order.fee + slice.fee
            && (quantity == p.quantity ==> slice.cost == p.costBasis && slice.fee == p.entryFee)
  {
    ProportionalWithin(p.costBasis, quantity, p.quantity);
    ProportionalWithin(p.entryFee, quantity, p.quantity);
  }

  lemma ShrinkPositionSound(p: Position, order: Order, remaining: Quantity, slice: SoldSlice)
    requires PositionSound(p) && remaining > 0 && order.price > 0
    requires 0 <= slice.cost <= p.costBasis && 0 <= slice.fee <= p.entryFee
    requires ShrinkPosition(p, order, remaining, slice).Ok?
    ensures var shrunk := ShrinkPosition(p, order, remaining, slice).value;
            && PositionSound(shrunk)
            && shrunk.quantity == remaining
            && shrunk.costBasis == p.costBasis - slice.cost
            && shrunk.entryFee == p.entryFee - slice.fee
  {
  }

  /** Taking a slice out of a table lowers its totals by the slice. */
  lemma SliceLeavesTable(before: map<string, Position>, symbol: string, after: map<string, Position>, slice: SoldSlice)
    requires symbol in before
    requires if symbol in after
             then && after == before[symbol := after[symbol]]
                  && after[symbol].costBasis == before[symbol].costBasis - slice.cost
                  && after[symbol].entryFee == before[symbol].entryFee - slice.fee
             else && after == before - {symbol}
                  && before[symbol].costBasis == slice.cost
                  && before[symbol].entryFee == slice.fee
    ensures Total(after, CostOf) == Total(before, CostOf) - slice.cost
    ensures Total(after, FeeOf) == Total(before, FeeOf) - slice.fee
  {
    if symbol in after {
      TotalUpdate(before, symbol, after[symbol], CostOf);
      TotalUpdate(before, symbol, after[symbol], FeeOf);
    } else {
      TotalRemove(before, symbol, CostOf);
      TotalRemove(before, symbol, FeeOf);
    }
  }

  /** What a close does to the state, in terms of the slice sold. */
  ghost predicate ClosedSlice(s: Ledger, order: Order, quantity: Quantity, slice: SoldSlice, s': Ledger, h: HashOrder)
    requires order.symbol in s.positions
  {
    var p := s.positions[order.symbol];
    && s'.cash == s.cash + slice.netProceeds
    && s'.totalFees == s.totalFees + order.fee
    && s'.tradeLog == s.tradeLog + [slice.trade]
    && ValueState(s.valuation, s'.cash, s'.positions, h) == Some(s'.valuation)
    && if quantity == p.quantity then s'.positions == s.positions - {order.symbol}
       else
         && order.symbol in s'.positions
         && s'.positions == s.positions[order.symbol := s'.positions[order.symbol]]
         && PositionSound(s'.positions[order.symbol])
         && s'.positions[order.symbol].quantity == p.quantity - quantity
         && s'.positions[order.symbol].costBasis == p.costBasis - slice.cost
         && s'.positions[order.symbol].entryFee == p.entryFee - slice.fee
  }

  lemma ClosePositionSells(s: Ledger, order: Order, explicitQuantity: Quantity, h: HashOrder)
    requires Sound(s) && order.symbol in s.positions && ClosePosition(s, order, explicitQuantity, h).Ok?
    ensures var p := s.positions[order.symbol];
            var quantity := if explicitQuantity > 0 then explicitQuantity else p.quantity;
            && 0 < quantity <= p.quantity && order.fee >= 0
            && SellSlice(p, order, quantity).Ok?
            && ClosedSlice(s, order, quantity, SellSlice(p, order, quantity).value,
                           ClosePosition(s, order, explicitQuantity, h).value, h)
  {
    hide Notional, AveragePrice, ValueState;
    var p := s.positions[order.symbol];
    var quantity := if explicitQuantity > 0 then explicitQuantity else p.quantity;
    SellSliceBalances(p, order, quantity);
    if quantity != p.quantity {
      ShrinkPositionSound(p, order, p.quantity - quantity, SellSlice(p, order, quantity).value);
    }
  }

  lemma ClosePositionConserves(s: Ledger, order: Order, explicitQuantity: Quantity, h: HashOrder)
    requires Sound(s) && ClosePosition(s, order, explicitQuantity, h).Ok?
    ensures Conserves(s, ClosePosition(s, order, explicitQuantity, h).value)
  {
    if order.symbol in s.positions {
      hide ClosePosition, SellSlice, ValueState, AveragePrice;
      var p := s.positions[order.symbol];
      var quantity := if explicitQuantity > 0 then explicitQuantity else p.quantity;
      ClosePositionSells(s, order, explicitQuantity, h);
      SellSliceBalances(p, order, quantity);
      var slice := SellSlice(p, order, quantity).value;
      var s' := ClosePosition(s, order, explicitQuantity, h).value;
      assert ClosedSlice(s, order, quantity, slice, s', h);
      ClosedSliceConserves(s, order, quantity, slice, s', h);
    }
  }

  lemma ClosedSliceConserves(s: Ledger, order: Order, quantity: Quantity, slice: SoldSlice, s': Ledger, h: HashOrder)
    requires Sound(s) && order.symbol in s.positions && ClosedSlice(s, order, quantity, slice, s', h)
    requires var p := s.positions[order.symbol];
             && slice.netProceeds >= 0
             && slice.trade.realizedPnL == slice.netProceeds - slice.cost - slice.fee
             && slice.trade.totalFees == order.fee + slice.fee
             && (quantity == p.quantity ==> slice.cost == p.costBasis && slice.fee == p.entryFee)
    ensures Conserves(s, s')
  {
    hide ValueState, AveragePrice;
    ValueStateIsExact(s.valuation, s'.cash, s'.positions, h);
    LogTotalAppend(s.tradeLog, slice.trade, PnlOf);
    LogTotalAppend(s.tradeLog, slice.trade, FeesOf);
    SliceLeavesTable(s.positions, order.symbol, s'.positions, slice);
  }

  /** Selling lowers the held quantity by exactly what was sold, and removes the position when nothing is left. */
  lemma ClosePositionQuantity(s: Ledger, order: Order, explicitQuantity: Quantity, h: HashOrder)
    requires Sound(s) && order.symbol in s.positions && ClosePosition(s, order, explicitQuantity, h).Ok?
    ensures var held := s.positions[order.symbol].quantity;
            var sold := if explicitQuantity > 0 then explicitQuantity else held;
            var after := ClosePosition(s, order, explicitQuantity, h).value.positions;
            && sold <= held
            && if sold == held then order.symbol !in after
               else order.symbol in after && after[order.symbol].quantity == held - sold
  {
    hide ClosePosition, SellSlice, ValueState, AveragePrice;
    ClosePositionSells(s, order, explicitQuantity, h);
  }

  lemma UpdatePnLConserves(s: Ledger, symbol: string, mark: Price, h: HashOrder)
    requires Sound(s) && UpdatePnL(s, symbol, mark, h).Ok?
    ensures Conserves(s, UpdatePnL(s, symbol, mark, h).value)
  {
    if symbol in s.positions {
      var p := s.positions[symbol].(lastMark := mark);
      ValueStateIsExact(s.valuation, s.cash, s.positions[symbol := p], h);
      TotalUpdate(s.positions, symbol, p, CostOf);
      TotalUpdate(s.positions, symbol, p, FeeOf);
    }
  }

  // ---------------------------------------------------------------------------
  // Every run
  // ---------------------------------------------------------------------------

  datatype Operation =
    | Open(order: Order, capitalToCommit: i64, units: Quantity)
    | Add(order: Order, quantity: Quantity, capitalToCommit: i64)
    | Close(order: Order, explicitQuantity: Quantity)
    | Mark(symbol: string, mark: Price)

  ghost function Apply(s: Ledger, op: Operation, h: HashOrder): Result<Ledger, LedgerError> {
    match op
    case Open(order, capital, units) => OpenLong(s, order, BudgetOf(capital), units, h)
    case Add(order, quantity, capital) => AddToLong(s, order, quantity, capital, h)
    case Close(order, quantity) => ClosePosition(s, order, quantity, h)
    case Mark(symbol, mark) => UpdatePnL(s, symbol, mark, h)
  }

  /** The state after an operation, which is the state before when the operation throws. */
  ghost function Step(s: Ledger, op: Operation, h: HashOrder): Ledger {
    match Apply(s, op, h)
    case Ok(s') => s'
    case Err(_) => s
  }

  function SymbolOf(op: Operation): string {
    match op
    case Open(order, _, _) => order.symbol
    case Add(order, _, _) => order.symbol
    case Close(order, _) => order.symbol
    case Mark(symbol, _) => symbol
  }

  /** An operation touches only its own symbol's position, and a mark leaves every quantity alone. */
  lemma StepFrame(s: Ledger, op: Operation, h: HashOrder)
    requires Apply(s, op, h).Ok?
    ensures var s' := Apply(s, op, h).value;
            && (forall k :: k != SymbolOf(op) ==>
                  && (k in s'.positions <==> k in s.positions)
                  && (k in s.positions ==> s'.positions[k] == s.positions[k]))
            && (op.Mark? ==>
                  && s'.positions.Keys == s.positions.Keys
                  && (forall k :: k in s.positions ==> s'.positions[k].quantity == s.positions[k].quantity))
  {
    hide Notional, AveragePrice, ValueState, SellSlice, ShrinkPosition, GrowPosition, EntryAmounts;
  }

  /** A run of operations, each traversing its table in an order of its own. */
  ghost function Run(s: Ledger, ops: seq<(Operation, HashOrder)>): Ledger {
    if ops == [] then s else Step(Run(s, ops[..|ops| - 1]), ops[|ops| - 1].0, ops[|ops| - 1].1)
  }

  lemma StepConserves(s: Ledger, op: Operation, h: HashOrder)
    requires Sound(s)
    ensures Conserves(s, Step(s, op, h))
  {
    if Apply(s, op, h).Ok? {
      match op
      case Open(order, capital, units) => OpenLongConserves(s, order, BudgetOf(capital), units, h);
      case Add(order, quantity, capital) => AddToLongConserves(s, order, quantity, capital, h);
      case Close(order, quantity) => ClosePositionConserves(s, order, quantity, h);
      case Mark(symbol, mark) => UpdatePnLConserves(s, symbol, mark, h);
    }
  }

  lemma {:induction false} RunConserves(s: Ledger, ops: seq<(Operation, HashOrder)>)
    requires Sound(s)
    ensures Conserves(s, Run(s, ops))
  {
    if ops != [] {
      RunConserves(s, ops[..|ops| - 1]);
      StepConserves(Run(s, ops[..|ops| - 1]), ops[|ops| - 1].0, ops[|ops| - 1].1);
    }
  }

  lemma InitialIsSound()
    ensures Sound(INITIAL) && Capital(INITIAL) == STARTING_CASH && UnallocatedFees(INITIAL) == 0
  {
  }

  /**
   The accounting identity. After any run from the starting balance, equity is the starting cash
   plus all realized and unrealized profit less the fees of open positions; every fee paid is
   either carried by an open position or reported by a trade; cash is never negative; average
   prices follow from cost and quantity; and equity never exceeds its recorded peak.
   */
  lemma EquityIdentity(ops: seq<(Operation, HashOrder)>)
    ensures var s := Run(INITIAL, ops);
            && s.valuation.totalEquity
               == STARTING_CASH + LogTotal(s.tradeLog, PnlOf) + s.valuation.unrealized - Total(s.positions, FeeOf)
            && s.totalFees == Total(s.positions, FeeOf) + LogTotal(s.tradeLog, FeesOf)
            && s.cash >= 0
            && (forall k :: k in s.positions ==>
                  AveragePrice(s.positions[k].costBasis, s.positions[k].quantity) == Some(s.positions[k].averageEntry))
            && s.valuation.totalEquity <= s.valuation.maxEquity
            && STARTING_CASH <= s.valuation.maxEquity
  {
    InitialIsSound();
    RunConserves(INITIAL, ops);
  }

  /** The recorded peak of equity never falls as a run goes on. */
  lemma {:induction false} PeakNeverFalls(ops: seq<(Operation, HashOrder)>, more: seq<(Operation, HashOrder)>)
    ensures Run(INITIAL, ops).valuation.maxEquity <= Run(INITIAL, ops + more).valuation.maxEquity
  {
    InitialIsSound();
    RunConserves(INITIAL, ops);
    RunAppend(INITIAL, ops, more);
    RunConserves(Run(INITIAL, ops), more);
  }

  lemma {:induction false} RunAppend(s: Ledger, ops: seq<(Operation, HashOrder)>, more: seq<(Operation, HashOrder)>)
    ensures Run(s, ops + more) == Run(Run(s, ops), more)
  {
    if more == [] {
      assert ops + more == ops;
    } else {
      var front := more[..|more| - 1];
      RunAppend(s, ops, front);
      assert (ops + more)[..|ops + more| - 1] == ops + front;
    }
  }
}
