/**
 The ledger as the object that is updated in place. Each method computes the next state step by
 step, returns the exception it would throw, and commits only when nothing failed.
 */
module PortfolioManagers {
  import opened Wrappers
  import opened MachineWords
  import opened FinancialMath
  import opened SortedKeys
  import L = PortfolioLedger
  import S = LedgerSnapshot

  /** What a call returns and leaves behind: the computed next state, or the exception and the old state. */
  ghost predicate Committed(before: L.Ledger, after: L.Ledger, error: Option<L.LedgerError>,
                            outcome: Result<L.Ledger, L.LedgerError>)
  {
    match outcome
    case Ok(next) => error == None && after == next
    case Err(e) => error == Some(e) && after == before
  }

  class PortfolioManager {
    var m_cash: Money
    var m_positions: map<string, L.Position>
    var m_valuation: L.Valuation
    var m_tradeCount: int
    var m_totalFeesPaid: Money
    var m_tradeLog: seq<L.Trade>
    var m_roundTripCount: int

    ghost function State(): L.Ledger
      reads this
    {
      L.Ledger(m_cash, m_positions, m_valuation, m_tradeCount, m_totalFeesPaid, m_tradeLog, m_roundTripCount)
    }

    constructor ()
      ensures State() == L.INITIAL
    {
      m_cash := L.STARTING_CASH;
      m_positions := map[];
      m_valuation := L.Valuation(0, L.STARTING_CASH, L.STARTING_CASH, 0.0, 0.0);
      m_tradeCount := 0;
      m_totalFeesPaid := 0;
      m_tradeLog := [];
      m_roundTripCount := 0;
    }

    method ValueState(cash: Money, positions: map<string, L.Position>, h: HashOrder)
      returns (valuation: Option<L.Valuation>)
      ensures valuation == L.ValueState(m_valuation, cash, positions, h)
    {
      var order := h(positions.Keys);
      assert Lists(order, positions.Keys);
      var markedValue: Money, unrealized: Money := 0, 0;
      var i := 0;
      while i < |order|
        invariant 0 <= i <= |order|
        invariant L.Accumulate(positions, order[..i]) == Some(L.Marks(markedValue, unrealized))
      {
        assert order[..i + 1][..i] == order[..i];
        assert order[i] in order;
        var state := positions[order[i]];
        var next := L.AccumulateOne(L.Marks(markedValue, unrealized), state);
        if next == None {
          FailureIsFinal(positions, order, i + 1);
          return None;
        }
        markedValue, unrealized := next.value.marked, next.value.unrealized;
        i := i + 1;
      }
      assert order[..i] == order;
      valuation := L.Revalue(m_valuation, cash, L.Marks(markedValue, unrealized));
    }

    /** Once a partial sum overflows, the whole accumulation has failed. */
    static lemma {:induction false} FailureIsFinal(positions: map<string, L.Position>, order: seq<string>, n: nat)
      requires forall k :: k in order ==> k in positions
      requires n <= |order| && L.Accumulate(positions, order[..n]) == None
      ensures L.Accumulate(positions, order) == None
    {
      if n == |order| {
        assert order[..n] == order;
      } else {
        var front := order[..|order| - 1];
        assert front[..n] == order[..n];
        FailureIsFinal(positions, front, n);
      }
    }

    method OpenLong(order: L.Order, capitalToCommit: i64, explicitUnits: Quantity, h: HashOrder)
      returns (error: Option<L.LedgerError>)
      modifies this
      ensures Committed(old(State()), State(), error,
                        L.OpenLong(old(State()), order, L.BudgetOf(capitalToCommit), explicitUnits, h))
    {
      error := OpenWithBudget(order, L.BudgetOf(capitalToCommit), explicitUnits, h);
    }

    method OpenWithBudget(order: L.Order, capital: L.Budget, explicitUnits: Quantity, h: HashOrder)
      returns (error: Option<L.LedgerError>)
      modifies this
      ensures Committed(old(State()), State(), error,
                        L.OpenLong(old(State()), order, capital, explicitUnits, h))
    {
      hide Notional, AveragePrice, QuantityForNotional, L.ValueState;
      if order.symbol == "" {
        return Some(L.InvalidArgument);
      }
      if order.symbol in m_positions {
        return Some(L.LogicError);
      }
      if explicitUnits < 0 || (capital.Slice? && capital.amount < 0) || order.fee < 0 {
        return Some(L.InvalidArgument);
      }
      if order.price <= 0 {
        return Some(L.InvalidArgument);
      }

      var budget := m_cash;
      if capital.Slice? {
        if capital.amount <= 0 || capital.amount > m_cash {
          return Some(L.InvalidArgument);
        }
        budget := capital.amount;
      }

      var quantity := explicitUnits;
      if explicitUnits <= 0 {
        var notionalBudget := CheckedSubtract(budget, order.fee);
        if notionalBudget == None || notionalBudget.value <= 0 {
          return Some(L.LogicError);
        }
        var affordable := QuantityForNotional(notionalBudget.value, order.price);
        if affordable == None || affordable.value <= 0 {
          return Some(L.LogicError);
        }
        quantity := affordable.value;
      }
      var costBasis := Notional(order.price, quantity);
      if costBasis == None {
        return Some(L.Overflow);
      }
      var debit := CheckedAdd(costBasis.value, order.fee);
      if debit == None {
        return Some(L.Overflow);
      }
      if explicitUnits > 0 && debit.value > budget {
        return Some(L.LogicError);
      }

      if debit.value > m_cash {
        return Some(L.LogicError);
      }
      if costBasis.value <= 0 {
        return Some(L.LogicError);
      }
      var averageEntry := AveragePrice(costBasis.value, quantity);
      if averageEntry == None {
        return Some(L.Overflow);
      }
      var nextCash := CheckedSubtract(m_cash, debit.value);
      if nextCash == None {
        return Some(L.Overflow);
      }
      var nextFees := CheckedAdd(m_totalFeesPaid, order.fee);
      if nextFees == None {
        return Some(L.Overflow);
      }
      var entered := L.Position(quantity, averageEntry.value, costBasis.value, order.price,
                                order.timestamp, order.fee, order.strategyId);
      error := CommitEntry(order.symbol, entered, nextCash.value, nextFees.value, h);
    }

    method CommitEntry(symbol: string, position: L.Position, nextCash: Money, nextFees: Money, h: HashOrder)
      returns (error: Option<L.LedgerError>)
      modifies this
      ensures Committed(old(State()), State(), error,
                        L.CommitEntry(old(State()), symbol, position, nextCash, nextFees, h))
    {
      var nextPositions := m_positions[symbol := position];
      var valuation := ValueState(nextCash, nextPositions, h);
      if valuation == None {
        return Some(L.Overflow);
      }
      if m_tradeCount == L.MAX_INT {
        return Some(L.Overflow);
      }
      m_cash := nextCash;
      m_positions := nextPositions;
      m_totalFeesPaid := nextFees;
      m_tradeCount := m_tradeCount + 1;
      m_valuation := valuation.value;
      error := None;
    }

    method AddToLong(order: L.Order, quantity: Quantity, capitalToCommit: i64, h: HashOrder)
      returns (error: Option<L.LedgerError>)
      modifies this
      ensures Committed(old(State()), State(), error,
                        L.AddToLong(old(State()), order, quantity, capitalToCommit, h))
    {
      hide Notional, AveragePrice, L.ValueState, L.OpenLong;
      if order.symbol !in m_positions {
        var budget := L.AddBudget(order.price, quantity, order.fee, capitalToCommit);
        error := OpenWithBudget(order.(timestamp := 0), budget, quantity, h);
        return;
      }
      if quantity <= 0 || order.fee < 0 || capitalToCommit < 0 {
        return Some(L.InvalidArgument);
      }
      if order.price <= 0 {
        return Some(L.InvalidArgument);
      }
      var addedCost := Notional(order.price, quantity);
      if addedCost == None {
        return Some(L.Overflow);
      }
      var debit := CheckedAdd(addedCost.value, order.fee);
      if debit == None {
        return Some(L.Overflow);
      }
      if addedCost.value <= 0 {
        return Some(L.LogicError);
      }
      if debit.value > m_cash {
        return Some(L.LogicError);
      }
      if capitalToCommit > 0 && debit.value > capitalToCommit {
        return Some(L.LogicError);
      }

      var state := m_positions[order.symbol];
      var nextQuantity := CheckedAdd(state.quantity, quantity);
      if nextQuantity == None {
        return Some(L.Overflow);
      }
      var nextCost := CheckedAdd(state.costBasis, addedCost.value);
      if nextCost == None {
        return Some(L.Overflow);
      }
      var nextFee := CheckedAdd(state.entryFee, order.fee);
      if nextFee == None {
        return Some(L.Overflow);
      }
      var average := AveragePrice(nextCost.value, nextQuantity.value);
      if average == None {
        return Some(L.Overflow);
      }
      state := state.(quantity := nextQuantity.value, costBasis := nextCost.value, entryFee := nextFee.value,
                      averageEntry := average.value, lastMark := order.price);
      if order.strategyId != "" {
        state := state.(strategyId := order.strategyId);
      }

      var nextCash := CheckedSubtract(m_cash, debit.value);
      if nextCash == None {
        return Some(L.Overflow);
      }
      var nextFees := CheckedAdd(m_totalFeesPaid, order.fee);
      if nextFees == None {
        return Some(L.Overflow);
      }
      error := CommitEntry(order.symbol, state, nextCash.value, nextFees.value, h);
    }

    method ClosePosition(order: L.Order, explicitQuantity: Quantity, h: HashOrder)
      returns (error: Option<L.LedgerError>)
      modifies this
      ensures Committed(old(State()), State(), error,
                        L.ClosePosition(old(State()), order, explicitQuantity, h))
    {
      hide Notional, AveragePrice, Proportional, L.ValueState;
      if order.symbol !in m_positions {
        return None;
      }
      if explicitQuantity < 0 || order.fee < 0 {
        return Some(L.InvalidArgument);
      }
      if order.price <= 0 {
        return Some(L.InvalidArgument);
      }
      var prior := m_positions[order.symbol];
      var closeQuantity := prior.quantity;
      if explicitQuantity > 0 {
        if explicitQuantity > prior.quantity {
          return Some(L.LogicError);
        }
        closeQuantity := explicitQuantity;
      }

      var slice := L.SellSlice(prior, order, closeQuantity);
      if slice.Err? {
        return Some(slice.error);
      }
      var remainingQuantity := CheckedSubtract(prior.quantity, closeQuantity);
      if remainingQuantity == None {
        return Some(L.Overflow);
      }
      var nextPositions := m_positions;
      if remainingQuantity.value == 0 {
        nextPositions := nextPositions - {order.symbol};
      } else {
        var shrunk := L.ShrinkPosition(prior, order, remainingQuantity.value, slice.value);
        if shrunk.Err? {
          return Some(shrunk.error);
        }
        nextPositions := nextPositions[order.symbol := shrunk.value];
      }
      var nextCash := CheckedAdd(m_cash, slice.value.netProceeds);
      if nextCash == None {
        return Some(L.Overflow);
      }
      var nextFees := CheckedAdd(m_totalFeesPaid, order.fee);
      if nextFees == None {
        return Some(L.Overflow);
      }
      var valuation := ValueState(nextCash.value, nextPositions, h);
      if valuation == None {
        return Some(L.Overflow);
      }
      if m_tradeCount == L.MAX_INT {
        return Some(L.Overflow);
      }
      if remainingQuantity.value == 0 && m_roundTripCount == L.MAX_INT {
        return Some(L.Overflow);
      }

      m_cash := nextCash.value;
      m_positions := nextPositions;
      m_totalFeesPaid := nextFees.value;
      m_tradeLog := m_tradeLog + [slice.value.trade];
      m_tradeCount := m_tradeCount + 1;
      if remainingQuantity.value == 0 {
        m_roundTripCount := m_roundTripCount + 1;
      }
      m_valuation := valuation.value;
      error := None;
    }

    method UpdatePnL(symbol: string, currentPrice: Price, h: HashOrder)
      returns (error: Option<L.LedgerError>)
      modifies this
      ensures Committed(old(State()), State(), error,
                        L.UpdatePnL(old(State()), symbol, currentPrice, h))
    {
      hide L.ValueState;
      if symbol !in m_positions {
        return None;
      }
      if currentPrice <= 0 {
        return Some(L.InvalidArgument);
      }
      var nextPositions := m_positions[symbol := m_positions[symbol].(lastMark := currentPrice)];
      var valuation := ValueState(m_cash, nextPositions, h);
      if valuation == None {
        return Some(L.Overflow);
      }
      m_positions := nextPositions;
      m_valuation := valuation.value;
      error := None;
    }

    method SnapshotState() returns (snapshot: S.Snapshot)
      ensures snapshot == S.SnapshotState(State())
    {
      var order := Sorted(m_positions.Keys);
      var positions: seq<S.PositionSnapshot> := [];
      var i := 0;
      while i < |order|
        invariant 0 <= i <= |order|
        invariant positions == S.PersistAll(m_positions, order)[..i]
      {
        assert order[i] in order;
        positions := positions + [S.Persist(order[i], m_positions[order[i]])];
        i := i + 1;
      }
      snapshot := S.Snapshot(m_cash, positions, m_valuation, m_tradeCount, m_totalFeesPaid,
                             m_tradeLog, m_roundTripCount);
    }

    /** The detached valuation is made with the snapshot's own peaks, never with this object's. */
    method RestoreState(snapshot: S.Snapshot, h: HashOrder) returns (error: Option<L.LedgerError>)
      modifies this
      ensures Committed(old(State()), State(), error,
                        S.RestoreState(snapshot, h))
    {
      hide L.ValueState, AveragePrice, S.SameValuation;
      if snapshot.cash < 0 || snapshot.valuation.totalEquity < 0
         || snapshot.valuation.maxEquity < 0 || snapshot.totalFees < 0 {
        return Some(L.InvalidArgument);
      }
      var positions: map<string, L.Position> := map[];
      var i := 0;
      while i < |snapshot.positions|
        invariant 0 <= i <= |snapshot.positions|
        invariant S.ReadPositions(snapshot.positions[..i]) == Some(positions)
      {
        var persisted := snapshot.positions[i];
        assert snapshot.positions[..i + 1][..i] == snapshot.positions[..i];
        if !S.Restorable(persisted) || persisted.symbol in positions {
          RejectionIsFinal(snapshot.positions, i + 1);
          return Some(L.InvalidArgument);
        }
        positions := positions[persisted.symbol := S.Revive(persisted)];
        i := i + 1;
      }
      assert snapshot.positions[..i] == snapshot.positions;

      var candidate := new PortfolioManager();
      candidate.m_valuation := snapshot.valuation;
      var valuation := candidate.ValueState(snapshot.cash, positions, h);
      if valuation == None {
        return Some(L.Overflow);
      }
      if !S.SameValuation(valuation.value, snapshot.valuation) {
        return Some(L.InvalidArgument);
      }

      m_cash := snapshot.cash;
      m_positions := positions;
      m_valuation := snapshot.valuation;
      m_tradeCount := snapshot.tradeCount;
      m_totalFeesPaid := snapshot.totalFees;
      m_tradeLog := snapshot.tradeLog;
      m_roundTripCount := snapshot.roundTripCount;
      error := None;
    }

    static lemma {:induction false} RejectionIsFinal(persisted: seq<S.PositionSnapshot>, n: nat)
      requires n <= |persisted| && S.ReadPositions(persisted[..n]) == None
      ensures S.ReadPositions(persisted) == None
    {
      if n == |persisted| {
        assert persisted[..n] == persisted;
      } else {
        var front := persisted[..|persisted| - 1];
        assert front[..n] == persisted[..n];
        RejectionIsFinal(front, n);
      }
    }
  }
}
