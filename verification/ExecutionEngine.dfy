/** The execution engine: sizing an entry from a budget, and booking accepted executions in place. */
module ExecutionEngines {
  import opened Wrappers
  import opened MachineWords
  import opened FinancialMath
  import opened SortedKeys
  import opened BrokerContracts
  import B = ExecutionBooking
  import L = PortfolioLedger
  import LC = OrderLifecycle
  import PM = PortfolioManagers

  // ---------------------------------------------------------------------------
  // Sizing
  // ---------------------------------------------------------------------------

  datatype Sizing = Sizing(units: Quantity, cost: Money, fee: Money, debit: Money)

  /** The cost, fee and debit of buying `units`. */
  function CostOf(price: Price, units: Quantity, feeRate: Fraction): Option<Sizing> {
    var cost :- Notional(price, units);
    var fee :- Fee(cost, feeRate);
    var debit :- CheckedAdd(cost, fee);
    Some(Sizing(units, cost, fee, debit))
  }

  /** The positive quantity a budget pays for once the fee is set aside. */
  function Affordable(budget: Money, price: Price, feeRate: Fraction): Option<Quantity> {
    var net :- NotionalBeforeFee(budget, feeRate);
    var units :- QuantityForNotional(net, price);
    if units <= 0 then None else Some(units)
  }

  lemma AffordableFits(budget: Money, price: Price, feeRate: Fraction)
    requires 0 <= budget && 0 < price && 0 <= feeRate < SCALE_FACTOR
    requires Affordable(budget, price, feeRate).Some?
    ensures var sizing := CostOf(price, Affordable(budget, price, feeRate).value, feeRate);
            sizing.Some? && sizing.value.cost > 0 && sizing.value.debit <= budget
  {
    hide Notional, Fee, QuantityForNotional, NotionalBeforeFee;
    SizingIsAffordable(budget, price, feeRate);
  }

  /** The budget of an entry: all cash for a volatility-sized one, else an equal slice of it. */
  function EntryBudget(cash: Money, volatilitySized: bool, maxPositions: nat, openPositions: nat): Money
    requires cash >= 0
  {
    if volatilitySized || maxPositions == 0 then cash
    else
      var remaining := if maxPositions > openPositions then maxPositions - openPositions else 1;
      SliceFits(cash, remaining);
      cash / remaining
  }

  lemma SliceFits(cash: Money, remaining: nat)
    requires cash >= 0 && remaining > 0
    ensures 0 <= cash / remaining <= cash
  {
    MulMono(1, remaining, cash / remaining);
  }

  /**
   Sizes an entry. `desired` is the volatility-based quantity when that sizing applies. The entry is
   refused only when the desired quantity is unusable or the budget affords nothing; a quantity
   sized from the budget is never refused by the closing budget check.
   */
  method SizeEntry(cash: Money, price: Price, feeRate: Fraction, volatilitySized: bool, desired: Option<Quantity>,
                   maxPositions: nat, openPositions: nat)
    returns (sizing: Option<Sizing>)
    requires 0 < cash && 0 < price && 0 <= feeRate < SCALE_FACTOR
    ensures var budget := EntryBudget(cash, volatilitySized, maxPositions, openPositions);
            var affordable := Affordable(budget, price, feeRate);
            if volatilitySized && (desired.None? || desired.value <= 0) then sizing == None
            else
              var wanted := if volatilitySized then CostOf(price, desired.value, feeRate) else None;
              if wanted.Some? && wanted.value.debit <= budget then sizing == wanted
              else
                && (sizing.Some? <==> affordable.Some?)
                && (sizing.Some? ==>
                      && sizing.value.units == affordable.value
                      && sizing == CostOf(price, sizing.value.units, feeRate)
                      && 0 < sizing.value.cost && sizing.value.debit <= budget)
  {
    hide Notional, Fee, QuantityForNotional, NotionalBeforeFee;
    var totalBudget := cash;
    var units: Quantity := 0;
    if volatilitySized {
      if desired.None? || desired.value <= 0 {
        return None;
      }
      units := desired.value;
    } else {
      totalBudget := EntryBudget(cash, volatilitySized, maxPositions, openPositions);
      var affordable := Affordable(totalBudget, price, feeRate);
      if affordable.None? {
        return None;
      }
      AffordableFits(totalBudget, price, feeRate);
      units := affordable.value;
    }

    sizing := CostOf(price, units, feeRate);
    if sizing.None? || sizing.value.debit > totalBudget {
      var affordable := Affordable(totalBudget, price, feeRate);
      if affordable.None? {
        return None;
      }
      AffordableFits(totalBudget, price, feeRate);
      units := affordable.value;
      sizing := CostOf(price, units, feeRate);
    }
    if sizing.None? || sizing.value.debit > totalBudget {
      return None;
    }
  }

  // ---------------------------------------------------------------------------
  // Booking
  // ---------------------------------------------------------------------------

  class ExecutionEngine {
    const m_portfolio: PM.PortfolioManager
    const m_symbol: string
    var m_appliedBrokerQty: map<u64, Quantity>
    var m_pendingBrokerQty: map<u64, Quantity>
    var m_filledCount: nat
    var m_lastBrokerOrderId: u64
    var m_apiErrors: nat

    ghost function State(): B.Engine
      reads this
    {
      B.Engine(m_symbol, m_appliedBrokerQty, m_pendingBrokerQty, m_filledCount, m_lastBrokerOrderId, m_apiErrors)
    }

    constructor (portfolio: PM.PortfolioManager, symbol: string)
      ensures m_portfolio == portfolio && State() == B.FreshEngine(symbol)
    {
      m_portfolio := portfolio;
      m_symbol := symbol;
      m_appliedBrokerQty := map[];
      m_pendingBrokerQty := map[];
      m_filledCount := 0;
      m_lastBrokerOrderId := 0;
      m_apiErrors := 0;
    }

    /** Opens, adds to or closes the symbol's position by one fill. */
    method BookFill(side: OrderSide, strategyId: string, timestamp: u64, fill: B.Fill, h: HashOrder)
      returns (booked: bool)
      modifies m_portfolio
      ensures match B.BookOnLedger(old(m_portfolio.State()), m_symbol, side, strategyId, timestamp, fill, h)
              case None => !booked && m_portfolio.State() == old(m_portfolio.State())
              case Some(s') => booked && m_portfolio.State() == s'
    {
      hide Notional, L.OpenLong, L.AddToLong, L.ClosePosition;
      var order := L.Order(m_symbol, fill.price, timestamp, fill.fee, strategyId);
      var error: Option<L.LedgerError> := None;
      if side == Buy {
        var cost := Notional(fill.price, fill.incremental);
        var debit := if cost.Some? then CheckedAdd(cost.value, fill.fee) else None;
        if debit.None? {
          return false;
        }
        if m_symbol !in m_portfolio.m_positions {
          error := m_portfolio.OpenLong(order, debit.value, fill.incremental, h);
        } else {
          error := m_portfolio.AddToLong(order, fill.incremental, debit.value, h);
        }
      } else {
        var held := if m_symbol in m_portfolio.m_positions then m_portfolio.m_positions[m_symbol].quantity else 0;
        if held <= 0 || fill.incremental > held {
          return false;
        }
        error := m_portfolio.ClosePosition(order, fill.incremental, h);
      }
      booked := error.None?;
    }

    /** Books the new part of an accepted execution; every failure is counted and changes nothing else. */
    method OnBrokerExecution(lifecycle: Option<LC.Record>, execution: ExecutionEvent, h: HashOrder)
      returns (ok: bool)
      modifies this, m_portfolio
      ensures (State(), m_portfolio.State(), ok) ==
                B.OnExecution(old(State()), old(m_portfolio.State()), lifecycle, execution, h)
    {
      hide B.ToUnits, B.BookOnLedger;
      if lifecycle.None? || lifecycle.value.request.canonicalSymbol != m_symbol {
        m_apiErrors := m_apiErrors + 1;
        return false;
      }

      var cumulative := B.ToUnits(execution.cumulativeFilledQuantity);
      var remaining := B.ToUnits(execution.remainingQuantity);
      var fillPrice := B.ToUnits(execution.fillPrice);
      var fillFee := B.ToUnits(execution.fee);
      if cumulative.None? || cumulative.value <= 0 || remaining.None? || remaining.value < 0
         || fillPrice.None? || fillPrice.value <= 0 || fillFee.None? || fillFee.value < 0 {
        m_apiErrors := m_apiErrors + 1;
        return false;
      }

      var id := execution.localOrderId;
      var previous := if id in m_appliedBrokerQty then m_appliedBrokerQty[id] else 0;
      var incremental := CheckedSubtract(cumulative.value, previous);
      if incremental.None? || incremental.value <= 0 {
        m_apiErrors := m_apiErrors + 1;
        return false;
      }

      var request := lifecycle.value.request;
      var fill := B.Fill(cumulative.value, remaining.value, fillPrice.value, fillFee.value, incremental.value);
      var booked := BookFill(request.side, request.sourceId, execution.timestampNs, fill, h);
      if !booked {
        m_apiErrors := m_apiErrors + 1;
        return false;
      }

      m_filledCount := m_filledCount + 1;
      m_lastBrokerOrderId := id;
      if remaining.value > 0 {
        m_appliedBrokerQty := m_appliedBrokerQty[id := cumulative.value];
        m_pendingBrokerQty := m_pendingBrokerQty[id := remaining.value];
      } else {
        m_pendingBrokerQty := m_pendingBrokerQty - {id};
        m_appliedBrokerQty := m_appliedBrokerQty - {id};
      }
      ok := true;
    }
  }
}
