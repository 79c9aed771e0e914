/**
 The portfolio ledger as a function of its state: opening, adding to, closing and marking long
 positions. Every operation computes the whole next state before committing it, or fails and
 changes nothing. Money, prices and quantities are integer units at scale 8.
 */
module PortfolioLedger {
  import opened Wrappers
  import opened MachineWords
  import opened FinancialMath
  import opened SortedKeys
  import opened TableTotals

  const STARTING_CASH: Money := 10_000_000_000_000
  const MAX_INT := 0x7fff_ffff

  datatype Position = Position(
    quantity: Quantity,
    averageEntry: Price,
    costBasis: Money,
    lastMark: Price,
    entryTimestamp: u64,
    entryFee: Money,
    strategyId: string)

  datatype Trade = Trade(
    symbol: string,
    openTimestamp: u64,
    closeTimestamp: u64,
    entryPrice: Price,
    exitPrice: Price,
    quantity: Quantity,
    totalFees: Money,
    realizedPnL: Money,
    grossPnL: Money,
    strategyId: string)

  /** The exceptions an operation can throw. */
  datatype LedgerError = InvalidArgument | LogicError | Overflow

  datatype Valuation = Valuation(
    unrealized: Money,
    totalEquity: Money,
    maxEquity: Money,
    currentDrawdown: real,
    maxDrawdown: real)

  datatype Ledger = Ledger(
    cash: Money,
    positions: map<string, Position>,
    valuation: Valuation,
    tradeCount: int,
    totalFees: Money,
    tradeLog: seq<Trade>,
    roundTripCount: int)

  const INITIAL := Ledger(STARTING_CASH, map[], Valuation(0, STARTING_CASH, STARTING_CASH, 0.0, 0.0), 0, 0, [], 0)

  function Require<T>(value: Option<T>, error: LedgerError): Result<T, LedgerError> {
    match value
    case Some(v) => Ok(v)
    case None => Err(error)
  }

  // ---------------------------------------------------------------------------
  // Valuation
  // ---------------------------------------------------------------------------

  datatype Marks = Marks(marked: Money, unrealized: Money)

  /** Marked value and unrealized profit accumulated along the table's iteration order, checked at each step. */
  function Accumulate(positions: map<string, Position>, order: seq<string>): Option<Marks>
    requires forall k :: k in order ==> k in positions
  {
    if order == [] then Some(Marks(0, 0))
    else
      assert order[|order| - 1] in order;
      var soFar :- Accumulate(positions, order[..|order| - 1]);
      AccumulateOne(soFar, positions[order[|order| - 1]])
  }

  function AccumulateOne(soFar: Marks, position: Position): Option<Marks> {
    var marked :- Notional(position.lastMark, position.quantity);
    var markedValue :- CheckedAdd(soFar.marked, marked);
    var positionPnl :- CheckedSubtract(marked, position.costBasis);
    var unrealized :- CheckedAdd(soFar.unrealized, positionPnl);
    Some(Marks(markedValue, unrealized))
  }

  function Drawdown(peak: Money, equity: Money): real {
    if peak > 0 then (peak - equity) as real / peak as real else 0.0
  }

  function Revalue(before: Valuation, cash: Money, marks: Marks): Option<Valuation> {
    var equity :- CheckedAdd(cash, marks.marked);
    var peak := if equity > before.maxEquity then equity else before.maxEquity;
    var drawdown := Drawdown(peak, equity);
    Some(Valuation(marks.unrealized, equity, peak, drawdown,
                   if before.maxDrawdown < drawdown then drawdown else before.maxDrawdown))
  }

  function ValueState(before: Valuation, cash: Money, positions: map<string, Position>, h: HashOrder)
    : Option<Valuation>
  {
    assert Lists(h(positions.Keys), positions.Keys);
    var marks :- Accumulate(positions, h(positions.Keys));
    Revalue(before, cash, marks)
  }

  // ---------------------------------------------------------------------------
  // Operations
  // ---------------------------------------------------------------------------

  datatype Entry = Entry(quantity: Quantity, cost: Money, debit: Money)

  function EntryAmounts(price: Price, fee: Money, budget: Money, units: Quantity): Result<Entry, LedgerError> {
    if units > 0 then
      var cost :- Require(Notional(price, units), Overflow);
      var debit :- Require(CheckedAdd(cost, fee), Overflow);
      if debit > budget then Err(LogicError) else Ok(Entry(units, cost, debit))
    else
      var notionalBudget :- Require(CheckedSubtract(budget, fee), LogicError);
      if notionalBudget <= 0 then Err(LogicError) else
      var quantity :- Require(QuantityForNotional(notionalBudget, price), LogicError);
      if quantity <= 0 then Err(LogicError) else
      var cost :- Require(Notional(price, quantity), Overflow);
      var debit :- Require(CheckedAdd(cost, fee), Overflow);
      Ok(Entry(quantity, cost, debit))
  }

  /** How much an entry may cost: all cash, or an explicit slice of it. */
  datatype Budget = AllCash | Slice(amount: int)

  function BudgetOf(capitalToCommit: i64): Budget {
    if capitalToCommit == 0 then AllCash else Slice(capitalToCommit)
  }

  function BudgetAmount(s: Ledger, budget: Budget): Result<Money, LedgerError> {
    match budget
    case AllCash => Ok(s.cash)
    case Slice(amount) => if amount <= 0 || amount > s.cash then Err(InvalidArgument) else Ok(amount)
  }

  datatype Order = Order(
    symbol: string,
    price: Price,
    timestamp: u64,
    fee: Money,
    strategyId: string)

  function OpenLong(s: Ledger, order: Order, budget: Budget, units: Quantity, h: HashOrder)
    : Result<Ledger, LedgerError>
  {
    if order.symbol == "" then Err(InvalidArgument)
    else if order.symbol in s.positions then Err(LogicError)
    else if units < 0 || (budget.Slice? && budget.amount < 0) || order.fee < 0 then Err(InvalidArgument)
    else if order.price <= 0 then Err(InvalidArgument)
    else
      var available :- BudgetAmount(s, budget);
      var entry :- EntryAmounts(order.price, order.fee, available, units);
      if entry.debit > s.cash then Err(LogicError)
      else if entry.cost <= 0 then Err(LogicError)
      else
        var average :- Require(AveragePrice(entry.cost, entry.quantity), Overflow);
        var nextCash :- Require(CheckedSubtract(s.cash, entry.debit), Overflow);
        var nextFees :- Require(CheckedAdd(s.totalFees, order.fee), Overflow);
        var entered := Position(entry.quantity, average, entry.cost, order.price,
                               order.timestamp, order.fee, order.strategyId);
        CommitEntry(s, order.symbol, entered, nextCash, nextFees, h)
  }

  function CommitEntry(s: Ledger, symbol: string, position: Position, nextCash: Money, nextFees: Money, h: HashOrder)
    : Result<Ledger, LedgerError>
  {
    var nextPositions := s.positions[symbol := position];
    var valuation :- Require(ValueState(s.valuation, nextCash, nextPositions, h), Overflow);
    if s.tradeCount == MAX_INT then Err(Overflow)
    else Ok(s.(cash := nextCash, positions := nextPositions, valuation := valuation,
               tradeCount := s.tradeCount + 1, totalFees := nextFees))
  }

  /** The budget handed on when there is no position yet: the given capital, or the order's own worth. */
  function AddBudget(price: Price, quantity: Quantity, fee: Money, capitalToCommit: i64): Budget {
    if capitalToCommit > 0 then Slice(capitalToCommit)
    else
      var worth := quantity * price + fee * SCALE_FACTOR;
      if worth == 0 then AllCash
      else if worth < 0 then Slice(-1)
      else Slice(Rounded(worth, SCALE_FACTOR, NearestTiesAwayFromZero).value)
  }

  function AddToLong(s: Ledger, order: Order, quantity: Quantity, capitalToCommit: i64, h: HashOrder)
    : Result<Ledger, LedgerError>
  {
    if order.symbol !in s.positions then
      OpenLong(s, order.(timestamp := 0), AddBudget(order.price, quantity, order.fee, capitalToCommit), quantity, h)
    else if quantity <= 0 || order.fee < 0 || capitalToCommit < 0 then Err(InvalidArgument)
    else if order.price <= 0 then Err(InvalidArgument)
    else
      var addedCost :- Require(Notional(order.price, quantity), Overflow);
      var debit :- Require(CheckedAdd(addedCost, order.fee), Overflow);
      if addedCost <= 0 then Err(LogicError)
      else if debit > s.cash then Err(LogicError)
      else if capitalToCommit > 0 && debit > capitalToCommit then Err(LogicError)
      else
        var grown :- GrowPosition(s.positions[order.symbol], order, quantity, addedCost);
        var nextCash :- Require(CheckedSubtract(s.cash, debit), Overflow);
        var nextFees :- Require(CheckedAdd(s.totalFees, order.fee), Overflow);
        CommitEntry(s, order.symbol, grown, nextCash, nextFees, h)
  }

  function GrowPosition(p: Position, order: Order, quantity: Quantity, addedCost: Money)
    : Result<Position, LedgerError>
  {
    var nextQuantity :- Require(CheckedAdd(p.quantity, quantity), Overflow);
    var nextCost :- Require(CheckedAdd(p.costBasis, addedCost), Overflow);
    var nextFee :- Require(CheckedAdd(p.entryFee, order.fee), Overflow);
    var average :- Require(AveragePrice(nextCost, nextQuantity), Overflow);
    Ok(p.(quantity := nextQuantity, costBasis := nextCost, entryFee := nextFee, averageEntry := average,
          lastMark := order.price,
          strategyId := if order.strategyId != "" then order.strategyId else p.strategyId))
  }

  /** What leaves a position when `quantity` of it is sold. */
  datatype SoldSlice = SoldSlice(cost: Money, fee: Money, netProceeds: Money, trade: Trade)

  function SellSlice(p: Position, order: Order, quantity: Quantity): Result<SoldSlice, LedgerError> {
    var grossProceeds :- Require(Notional(order.price, quantity), Overflow);
    var netProceeds :- Require(CheckedSubtract(grossProceeds, order.fee), LogicError);
    if netProceeds < 0 then Err(LogicError) else
    var allocatedCost :- Require(Proportional(p.costBasis, quantity, p.quantity), Overflow);
    var allocatedFee :- Require(Proportional(p.entryFee, quantity, p.quantity), Overflow);
    var grossPnl :- Require(CheckedSubtract(grossProceeds, allocatedCost), Overflow);
    var afterExitFee :- Require(CheckedSubtract(grossPnl, order.fee), Overflow);
    var realizedPnl :- Require(CheckedSubtract(afterExitFee, allocatedFee), Overflow);
    var tradeFees :- Require(CheckedAdd(order.fee, allocatedFee), Overflow);
    Ok(SoldSlice(allocatedCost, allocatedFee, netProceeds,
              Trade(order.symbol, p.entryTimestamp, order.timestamp, p.averageEntry, order.price, quantity,
                    tradeFees, realizedPnl, grossPnl,
                    if order.strategyId != "" then order.strategyId else p.strategyId)))
  }

  function ShrinkPosition(p: Position, order: Order, remaining: Quantity, slice: SoldSlice)
    : Result<Position, LedgerError>
  {
    var nextCost :- Require(CheckedSubtract(p.costBasis, slice.cost), Overflow);
    var nextFee :- Require(CheckedSubtract(p.entryFee, slice.fee), Overflow);
    var average :- Require(AveragePrice(nextCost, remaining), Overflow);
    Ok(p.(quantity := remaining, costBasis := nextCost, entryFee := nextFee, averageEntry := average,
          lastMark := order.price))
  }

  function ClosePosition(s: Ledger, order: Order, explicitQuantity: Quantity, h: HashOrder)
    : Result<Ledger, LedgerError>
  {
    if order.symbol !in s.positions then Ok(s)
    else if explicitQuantity < 0 || order.fee < 0 then Err(InvalidArgument)
    else if order.price <= 0 then Err(InvalidArgument)
    else
      var p := s.positions[order.symbol];
      if explicitQuantity > 0 && explicitQuantity > p.quantity then Err(LogicError) else
      var quantity := if explicitQuantity > 0 then explicitQuantity else p.quantity;
      var slice :- SellSlice(p, order, quantity);
      var remaining :- Require(CheckedSubtract(p.quantity, quantity), Overflow);
      var nextPositions :-
        if remaining == 0 then Ok(s.positions - {order.symbol})
        else
          var shrunk :- ShrinkPosition(p, order, remaining, slice);
          Ok(s.positions[order.symbol := shrunk]);
      var nextCash :- Require(CheckedAdd(s.cash, slice.netProceeds), Overflow);
      var nextFees :- Require(CheckedAdd(s.totalFees, order.fee), Overflow);
      var valuation :- Require(ValueState(s.valuation, nextCash, nextPositions, h), Overflow);
      if s.tradeCount == MAX_INT || (remaining == 0 && s.roundTripCount == MAX_INT) then Err(Overflow)
      else Ok(Ledger(nextCash, nextPositions, valuation, s.tradeCount + 1, nextFees, s.tradeLog + [slice.trade],
                     if remaining == 0 then s.roundTripCount + 1 else s.roundTripCount))
  }

  function UpdatePnL(s: Ledger, symbol: string, mark: Price, h: HashOrder): Result<Ledger, LedgerError> {
    if symbol !in s.positions then Ok(s)
    else if mark <= 0 then Err(InvalidArgument)
    else
      var nextPositions := s.positions[symbol := s.positions[symbol].(lastMark := mark)];
      var valuation :- Require(ValueState(s.valuation, s.cash, nextPositions, h), Overflow);
      Ok(s.(positions := nextPositions, valuation := valuation))
  }
}
