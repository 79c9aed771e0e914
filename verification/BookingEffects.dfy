/**
 What a booked execution does to engine and ledger, in terms of the execution itself: when it is
 booked, which quantity, price and fee it is booked with, and what that does to cash, fees and
 positions, for one execution and over whole runs.
 */
module BookingEffects {
  import opened Wrappers
  import opened MachineWords
  import opened FinancialMath
  import opened SortedKeys
  import opened BrokerContracts
  import opened StepNormalization
  import opened ExecutionBooking
  import opened LedgerEffects
  import opened ExactlyOnce
  import LC = OrderLifecycle
  import L = PortfolioLedger
  import C = LedgerConservation

  // ---------------------------------------------------------------------------
  // What an execution reports
  // ---------------------------------------------------------------------------

  /** The decimal is exactly that many units of 10^-8. */
  ghost predicate InUnits(d: Decimal64, units: i64) {
    d.units * 100_000_000 == units * Pow10(d.scale)
  }

  lemma ToUnitsIff(d: Decimal64, units: i64)
    ensures ToUnits(d) == Some(units) <==> InUnits(d, units)
  {
    assert Pow10(SCALE) == 100_000_000;
    hide Pow10;
    if d.scale <= SCALE {
      Pow10Sum(SCALE - d.scale, d.scale);
      ScaledUp(d.units, units, Pow10(SCALE - d.scale), Pow10(d.scale));
    } else {
      Pow10Sum(d.scale - SCALE, SCALE);
      ScaledDown(d.units, units, Pow10(d.scale - SCALE), Pow10(SCALE));
    }
  }

  lemma ScaledUp(n: int, units: int, p: nat, rest: nat)
    requires p > 0 && rest > 0
    ensures n * (p * rest) == units * rest <==> n * p == units
  {
    Regroup(n, p, rest);
    if n * p * rest == units * rest {
      Cancel(n * p, units, rest);
    }
  }

  lemma ScaledDown(n: int, units: int, p: nat, rest: nat)
    requires p > 0 && rest > 0
    ensures n * rest == units * (p * rest) <==> n % p == 0 && n / p == units
  {
    Regroup(units, p, rest);
    if n * rest == units * p * rest {
      Cancel(n, units * p, rest);
      DivModUnique(n, p, units, 0);
    }
  }

  lemma Cancel(a: int, b: int, c: nat)
    requires c > 0 && a * c == b * c
    ensures a == b
  {
    if a < b {
      MulStep(a, b, c);
    } else if b < a {
      MulStep(b, a, c);
    }
  }

  function AppliedSoFar(e: Engine, id: u64): Quantity {
    if id in e.appliedQuantity then e.appliedQuantity[id] else 0
  }

  /** The fill an execution reports: its own numbers in units, and what of its quantity is not yet applied. */
  ghost predicate Reports(e: Engine, execution: ExecutionEvent, fill: Fill) {
    && InUnits(execution.cumulativeFilledQuantity, fill.cumulative) && fill.cumulative > 0
    && InUnits(execution.remainingQuantity, fill.remaining) && fill.remaining >= 0
    && InUnits(execution.fillPrice, fill.price) && fill.price > 0
    && InUnits(execution.fee, fill.fee) && fill.fee >= 0
    && fill.incremental == fill.cumulative - AppliedSoFar(e, execution.localOrderId) && fill.incremental > 0
  }

  lemma FillOfIff(e: Engine, execution: ExecutionEvent, fill: Fill)
    ensures FillOf(e, execution) == Some(fill) <==> Reports(e, execution, fill)
  {
    hide ToUnits, InUnits;
    ToUnitsIff(execution.cumulativeFilledQuantity, fill.cumulative);
    ToUnitsIff(execution.remainingQuantity, fill.remaining);
    ToUnitsIff(execution.fillPrice, fill.price);
    ToUnitsIff(execution.fee, fill.fee);
  }

  // ---------------------------------------------------------------------------
  // What the ledger makes of it
  // ---------------------------------------------------------------------------

  /** The order the ledger sees: price and fee of the fill, time of the execution, strategy of the request. */
  function FillOrder(symbol: string, strategyId: string, timestamp: u64, fill: Fill): L.Order {
    L.Order(symbol, fill.price, timestamp, fill.fee, strategyId)
  }

  /** Whether the ledger takes the fill: a buy must be affordable, a sale held, and the result representable. */
  ghost predicate Takes(s: L.Ledger, side: OrderSide, order: L.Order, quantity: Quantity, h: HashOrder) {
    match side
    case Buy =>
      if order.symbol !in s.positions
      then order.symbol != "" && exists terms :: CanOpen(s, order, L.AllCash, quantity, terms, h)
      else exists added :: CanAdd(s, order, quantity, 0, added, h)
    case Sell =>
      && order.symbol in s.positions && quantity <= s.positions[order.symbol].quantity
      && exists sale :: CanClose(s, order, quantity, sale, h)
  }

  /** The ledger after it took the fill. */
  ghost predicate Taken(s: L.Ledger, side: OrderSide, order: L.Order, quantity: Quantity, h: HashOrder, s': L.Ledger) {
    match side
    case Buy =>
      if order.symbol !in s.positions
      then forall terms | CanOpen(s, order, L.AllCash, quantity, terms, h) :: Opened(s, order, terms, s')
      else forall added | CanAdd(s, order, quantity, 0, added, h) :: Grown(s, order, quantity, added, s')
    case Sell =>
      && order.symbol in s.positions
      && forall sale | CanClose(s, order, quantity, sale, h) :: Closed(s, order, quantity, sale, s')
  }

  /** Limiting a buy to what it costs is no limit beyond the cash. */
  lemma DebitIsNoLimit(s: L.Ledger, order: L.Order, quantity: Quantity, cost: Money, h: HashOrder)
    requires Notional(order.price, quantity) == Some(cost) && FitsI64(cost + order.fee)
    requires quantity > 0 && order.price > 0 && order.fee >= 0 && s.cash >= 0
    ensures order.symbol !in s.positions ==> forall terms ::
              CanOpen(s, order, L.BudgetOf(cost + order.fee), quantity, terms, h)
              <==> CanOpen(s, order, L.AllCash, quantity, terms, h)
    ensures order.symbol !in s.positions && order.symbol != "" ==> forall terms ::
              CanOpen(s, order, L.AllCash, quantity, terms, h) ==>
                EntryArgumentsValid(s, order, L.BudgetOf(cost + order.fee), quantity)
    ensures order.symbol in s.positions ==> forall added ::
              CanAdd(s, order, quantity, cost + order.fee, added, h) <==> CanAdd(s, order, quantity, 0, added, h)
  {
  }

  lemma NoTerms(s: L.Ledger, order: L.Order, quantity: Quantity, terms: Terms, h: HashOrder)
    requires forall cost: Money :: Notional(order.price, quantity) == Some(cost) ==> !FitsI64(cost + order.fee)
    requires quantity > 0 && order.symbol !in s.positions
    ensures !CanOpen(s, order, L.AllCash, quantity, terms, h)
  {
    NotionalIff(order.price, quantity, terms.cost);
    hide Notional, L.ValueState, IsNearest;
  }

  lemma NoAddition(s: L.Ledger, order: L.Order, quantity: Quantity, added: Addition, h: HashOrder)
    requires forall cost: Money :: Notional(order.price, quantity) == Some(cost) ==> !FitsI64(cost + order.fee)
    requires quantity > 0 && order.symbol in s.positions
    ensures !CanAdd(s, order, quantity, 0, added, h)
  {
    NotionalIff(order.price, quantity, added.cost);
    hide Notional, L.ValueState, IsNearest, Enlarged;
  }

  lemma NothingAffordable(s: L.Ledger, order: L.Order, quantity: Quantity, h: HashOrder)
    requires forall cost: Money :: Notional(order.price, quantity) == Some(cost) ==> !FitsI64(cost + order.fee)
    requires quantity > 0
    ensures !Takes(s, Buy, order, quantity, h)
  {
    hide Notional, CanOpen, CanAdd;
    if order.symbol !in s.positions {
      forall terms ensures !CanOpen(s, order, L.AllCash, quantity, terms, h) {
        NoTerms(s, order, quantity, terms, h);
      }
    } else {
      forall added ensures !CanAdd(s, order, quantity, 0, added, h) {
        NoAddition(s, order, quantity, added, h);
      }
    }
  }

  lemma BuyNewIff(s: L.Ledger, order: L.Order, quantity: Quantity, cost: Money, h: HashOrder)
    requires s.cash >= 0 && s.totalFees >= 0 && order.symbol !in s.positions
    requires quantity > 0 && order.price > 0 && order.fee >= 0
    requires Notional(order.price, quantity) == Some(cost) && FitsI64(cost + order.fee)
    ensures var r := L.OpenLong(s, order, L.BudgetOf(cost + order.fee), quantity, h);
            && (r.Ok? <==> Takes(s, Buy, order, quantity, h))
            && (r.Ok? ==> Taken(s, Buy, order, quantity, h, r.value))
  {
    hide L.OpenLong, CanOpen, CanAdd, Opened, Grown, Notional, EntryArgumentsValid;
    var budget := L.BudgetOf(cost + order.fee);
    DebitIsNoLimit(s, order, quantity, cost, h);
    OpenLongIff(s, order, budget, quantity, h);
    if L.OpenLong(s, order, budget, quantity, h).Ok? {
      var terms :| CanOpen(s, order, budget, quantity, terms, h);
      assert CanOpen(s, order, L.AllCash, quantity, terms, h);
      NamedEntry(s, order, budget, quantity);
    }
    if Takes(s, Buy, order, quantity, h) {
      var terms :| CanOpen(s, order, L.AllCash, quantity, terms, h);
      assert CanOpen(s, order, budget, quantity, terms, h);
    }
  }

  lemma NamedEntry(s: L.Ledger, order: L.Order, budget: L.Budget, quantity: Quantity)
    requires EntryArgumentsValid(s, order, budget, quantity)
    ensures order.symbol != ""
  {
  }

  lemma BuyMoreIff(s: L.Ledger, order: L.Order, quantity: Quantity, cost: Money, h: HashOrder)
    requires C.Sound(s) && s.totalFees >= 0 && order.symbol in s.positions
    requires quantity > 0 && order.price > 0 && order.fee >= 0
    requires Notional(order.price, quantity) == Some(cost) && FitsI64(cost + order.fee)
    ensures var r := L.AddToLong(s, order, quantity, cost + order.fee, h);
            && (r.Ok? <==> Takes(s, Buy, order, quantity, h))
            && (r.Ok? ==> Taken(s, Buy, order, quantity, h, r.value))
  {
    assert s.cash >= 0;
    hide L.AddToLong, CanOpen, CanAdd, Opened, Grown, Notional, C.Sound;
    var capital: i64 := cost + order.fee;
    DebitIsNoLimit(s, order, quantity, cost, h);
    AddToLongIff(s, order, quantity, capital, h);
    if L.AddToLong(s, order, quantity, capital, h).Ok? {
      var added :| CanAdd(s, order, quantity, capital, added, h);
      assert CanAdd(s, order, quantity, 0, added, h);
    }
    if Takes(s, Buy, order, quantity, h) {
      var added :| CanAdd(s, order, quantity, 0, added, h);
      assert CanAdd(s, order, quantity, capital, added, h);
    }
  }

  lemma BuyIff(s: L.Ledger, symbol: string, strategyId: string, timestamp: u64, fill: Fill, h: HashOrder)
    requires C.Sound(s) && s.totalFees >= 0 && fill.incremental > 0 && fill.price > 0 && fill.fee >= 0
    ensures var order := FillOrder(symbol, strategyId, timestamp, fill);
            var r := BookOnLedger(s, symbol, Buy, strategyId, timestamp, fill, h);
            && (r.Some? <==> Takes(s, Buy, order, fill.incremental, h))
            && (r.Some? ==> Taken(s, Buy, order, fill.incremental, h, r.value))
  {
    var order := FillOrder(symbol, strategyId, timestamp, fill);
    assert s.cash >= 0;
    hide L.OpenLong, L.AddToLong, Takes, Taken, C.Sound, Notional;
    var cost := Notional(fill.price, fill.incremental);
    if cost == None || !FitsI64(cost.value + fill.fee) {
      NothingAffordable(s, order, fill.incremental, h);
    } else if symbol !in s.positions {
      BuyNewIff(s, order, fill.incremental, cost.value, h);
    } else {
      BuyMoreIff(s, order, fill.incremental, cost.value, h);
    }
  }

  lemma SellIff(s: L.Ledger, symbol: string, strategyId: string, timestamp: u64, fill: Fill, h: HashOrder)
    requires C.Sound(s) && fill.incremental > 0
    ensures var order := FillOrder(symbol, strategyId, timestamp, fill);
            var r := BookOnLedger(s, symbol, Sell, strategyId, timestamp, fill, h);
            && (r.Some? <==> Takes(s, Sell, order, fill.incremental, h))
            && (r.Some? ==> Taken(s, Sell, order, fill.incremental, h, r.value))
  {
    if symbol in s.positions {
      assert C.PositionSound(s.positions[symbol]);
    }
    hide L.ClosePosition, CanClose, Closed, C.Sound;
    ClosePositionIff(s, FillOrder(symbol, strategyId, timestamp, fill), fill.incremental, h);
  }

  // ---------------------------------------------------------------------------
  // One execution
  // ---------------------------------------------------------------------------

  /** The engine after it booked the fill of an order: the order is remembered while some of it remains. */
  ghost predicate Recorded(e: Engine, id: u64, fill: Fill, e': Engine) {
    && e'.symbol == e.symbol && e'.apiErrors == e.apiErrors
    && e'.filledCount == e.filledCount + 1 && e'.lastOrderId == id
    && (forall other :: other != id ==>
          && (other in e'.appliedQuantity <==> other in e.appliedQuantity)
          && (other in e.appliedQuantity ==> e'.appliedQuantity[other] == e.appliedQuantity[other])
          && (other in e'.pendingQuantity <==> other in e.pendingQuantity)
          && (other in e.pendingQuantity ==> e'.pendingQuantity[other] == e.pendingQuantity[other]))
    && (if fill.remaining > 0
        then && id in e'.appliedQuantity && e'.appliedQuantity[id] == fill.cumulative
             && id in e'.pendingQuantity && e'.pendingQuantity[id] == fill.remaining
        else id !in e'.appliedQuantity && id !in e'.pendingQuantity)
  }

  /** The fill of an execution is booked on the ledger. */
  ghost predicate Bookable(e: Engine, s: L.Ledger, lifecycle: Option<LC.Record>, execution: ExecutionEvent, fill: Fill,
                           h: HashOrder)
  {
    && lifecycle.Some? && lifecycle.value.request.canonicalSymbol == e.symbol
    && Reports(e, execution, fill)
    && Takes(s, lifecycle.value.request.side,
             FillOrder(e.symbol, lifecycle.value.request.sourceId, execution.timestampNs, fill), fill.incremental, h)
  }

  lemma RecordFillRecords(e: Engine, id: u64, fill: Fill)
    ensures Recorded(e, id, fill, RecordFill(e, id, fill))
  {
  }

  lemma LedgerIff(s: L.Ledger, symbol: string, side: OrderSide, strategyId: string, timestamp: u64, fill: Fill,
                  h: HashOrder)
    requires C.Sound(s) && s.totalFees >= 0 && fill.incremental > 0 && fill.price > 0 && fill.fee >= 0
    ensures var order := FillOrder(symbol, strategyId, timestamp, fill);
            var r := BookOnLedger(s, symbol, side, strategyId, timestamp, fill, h);
            && (r.Some? <==> Takes(s, side, order, fill.incremental, h))
            && (r.Some? ==> Taken(s, side, order, fill.incremental, h, r.value))
  {
    hide BookOnLedger, Takes, Taken, C.Sound;
    match side
    case Buy => BuyIff(s, symbol, strategyId, timestamp, fill, h);
    case Sell => SellIff(s, symbol, strategyId, timestamp, fill, h);
  }

  /**
   An execution is booked if and only if its order is known and of the engine's symbol, its numbers
   are whole units, something of it is new, and the ledger takes that; it is then booked with the
   execution's own price and fee. Otherwise an error is counted and nothing else happens.
   */
  lemma ExecutionIff(e: Engine, s: L.Ledger, lifecycle: Option<LC.Record>, execution: ExecutionEvent, h: HashOrder)
    requires C.Sound(s) && s.totalFees >= 0
    ensures var (e', s', booked) := OnExecution(e, s, lifecycle, execution, h);
            && (booked <==> exists fill :: Bookable(e, s, lifecycle, execution, fill, h))
            && (booked ==> forall fill | Bookable(e, s, lifecycle, execution, fill, h) ::
                  && Recorded(e, execution.localOrderId, fill, e')
                  && Taken(s, lifecycle.value.request.side,
                           FillOrder(e.symbol, lifecycle.value.request.sourceId, execution.timestampNs, fill),
                           fill.incremental, h, s'))
            && (!booked ==> e' == e.(apiErrors := e.apiErrors + 1) && s' == s)
  {
    hide FillOf, BookOnLedger, Takes, Taken, C.Sound, RecordFill, Recorded, InUnits;
    forall fill ensures FillOf(e, execution) == Some(fill) <==> Reports(e, execution, fill) {
      FillOfIff(e, execution, fill);
    }
    if FillOf(e, execution).Some? && lifecycle.Some? {
      var fill, request := FillOf(e, execution).value, lifecycle.value.request;
      LedgerIff(s, e.symbol, request.side, request.sourceId, execution.timestampNs, fill, h);
      RecordFillRecords(e, execution.localOrderId, fill);
      assert request.canonicalSymbol == e.symbol &&
        Takes(s, request.side, FillOrder(e.symbol, request.sourceId, execution.timestampNs, fill), fill.incremental, h)
        ==> Bookable(e, s, lifecycle, execution, fill, h);
    }
  }

  /** A fill of that notional amount went through the books: cash, fees, and the cost or the logged sale. */
  ghost predicate MovesMoney(s: L.Ledger, s': L.Ledger, symbol: string, side: OrderSide, timestamp: u64, fill: Fill,
                             amount: Money)
  {
    && IsNearest(fill.price * fill.incremental, 100_000_000, amount)
    && s'.totalFees == s.totalFees + fill.fee
    && match side
       case Buy =>
         && s'.cash == s.cash - amount - fill.fee
         && s'.tradeLog == s.tradeLog
         && symbol in s'.positions
         && var q := s'.positions[symbol];
         && q.lastMark == fill.price
         && q.costBasis == (if symbol in s.positions then s.positions[symbol].costBasis else 0) + amount
         && q.entryFee == (if symbol in s.positions then s.positions[symbol].entryFee else 0) + fill.fee
       case Sell =>
         && s'.cash == s.cash + amount - fill.fee
         && |s'.tradeLog| == |s.tradeLog| + 1 && s.tradeLog <= s'.tradeLog
         && var t := s'.tradeLog[|s.tradeLog|];
         && t.symbol == symbol && t.exitPrice == fill.price && t.quantity == fill.incremental
         && t.closeTimestamp == timestamp
  }

  /**
   A booked execution moves the money its own numbers say: fees paid rise by its fee, and cash falls
   by the value of the new quantity at its price plus the fee, or rises by that value less the fee.
   */
  lemma BookedExecutionMovesMoney(e: Engine, s: L.Ledger, lifecycle: Option<LC.Record>, execution: ExecutionEvent,
                                  h: HashOrder)
    requires C.Sound(s) && s.totalFees >= 0 && OnExecution(e, s, lifecycle, execution, h).2
    ensures lifecycle.Some?
    ensures exists fill, amount :: Reports(e, execution, fill) &&
              MovesMoney(s, OnExecution(e, s, lifecycle, execution, h).1, e.symbol, lifecycle.value.request.side,
                         execution.timestampNs, fill, amount)
  {
    hide OnExecution, Takes, Taken, C.Sound, Recorded, Reports, MovesMoney;
    ExecutionIff(e, s, lifecycle, execution, h);
    var fill :| Bookable(e, s, lifecycle, execution, fill, h);
    var request := lifecycle.value.request;
    ReportsSomething(e, execution, fill);
    var amount := TakenMovesMoney(s, e.symbol, request.side, request.sourceId, execution.timestampNs, fill, h,
                                  OnExecution(e, s, lifecycle, execution, h).1);
  }

  lemma ReportsSomething(e: Engine, execution: ExecutionEvent, fill: Fill)
    requires Reports(e, execution, fill)
    ensures fill.incremental > 0 && fill.fee >= 0 && ToUnits(execution.fee) == Some(fill.fee)
  {
    ToUnitsIff(execution.fee, fill.fee);
    hide ToUnits, InUnits;
  }

  lemma TakenMovesMoney(s: L.Ledger, symbol: string, side: OrderSide, strategyId: string, timestamp: u64, fill: Fill,
                        h: HashOrder, s': L.Ledger) returns (amount: Money)
    requires Takes(s, side, FillOrder(symbol, strategyId, timestamp, fill), fill.incremental, h)
    requires Taken(s, side, FillOrder(symbol, strategyId, timestamp, fill), fill.incremental, h, s')
    requires fill.incremental > 0
    ensures MovesMoney(s, s', symbol, side, timestamp, fill, amount)
  {
    var order := FillOrder(symbol, strategyId, timestamp, fill);
    hide L.ValueState, Revalued, IsNearest;
    match side
    case Buy =>
      if symbol !in s.positions {
        var terms :| CanOpen(s, order, L.AllCash, fill.incremental, terms, h);
        amount := terms.cost;
      } else {
        var added :| CanAdd(s, order, fill.incremental, 0, added, h);
        amount := added.cost;
      }
    case Sell =>
      var sale :| CanClose(s, order, fill.incremental, sale, h);
      amount := sale.proceeds;
  }

  // ---------------------------------------------------------------------------
  // Fees and cash over whole runs
  // ---------------------------------------------------------------------------

  /** The gateway accepts the execution and the engine books it. */
  ghost predicate BooksNow(p: Pipeline, execution: ExecutionEvent, h: HashOrder) {
    var (store, result) := LC.ApplyExecution(p.store, execution);
    result == LC.Applied && OnExecution(p.engine, p.ledger, Find(store, execution.localOrderId), execution, h).2
  }

  ghost function Units(d: Decimal64): int {
    match ToUnits(d)
    case Some(units) => units
    case None => 0
  }

  /** The fee an operation on the ledger charges, when it succeeds and does anything. */
  ghost function OperationFee(s: L.Ledger, op: C.Operation, h: HashOrder): int {
    if C.Apply(s, op, h).Err? then 0
    else
      match op
      case Open(order, _, _) => order.fee
      case Add(order, _, _) => order.fee
      case Close(order, _) => if order.symbol in s.positions then order.fee else 0
      case Mark(_, _) => 0
  }

  ghost function FeeCharged(p: Pipeline, event: PipelineEvent): int {
    match event
    case Execution(execution, h) => if BooksNow(p, execution, h) then Units(execution.fee) else 0
    case Lifecycle(_) => 0
    case LedgerOperation(op, h) => OperationFee(p.ledger, op, h)
  }

  ghost function FeesCharged(p: Pipeline, events: seq<PipelineEvent>): int {
    if events == [] then 0
    else
      var front := events[..|events| - 1];
      FeesCharged(p, front) + FeeCharged(Run(p, front), events[|events| - 1])
  }

  lemma OperationCharges(s: L.Ledger, op: C.Operation, h: HashOrder)
    requires C.Sound(s) && s.totalFees >= 0
    ensures C.Step(s, op, h).totalFees == s.totalFees + OperationFee(s, op, h) && OperationFee(s, op, h) >= 0
  {
    assert s.cash >= 0;
    hide C.Sound, L.OpenLong, L.AddToLong, L.ClosePosition, L.UpdatePnL, L.ValueState, Revalued, TermsOf;
    hide AdditionOf, SaleOf;
    match op
    case Open(order, capital, units) =>
      OpenLongIff(s, order, L.BudgetOf(capital), units, h);
      if C.Apply(s, op, h).Ok? {
        var terms :| CanOpen(s, order, L.BudgetOf(capital), units, terms, h);
      }
    case Add(order, quantity, capital) =>
      AdditionCharges(s, order, quantity, capital, h);
    case Close(order, quantity) =>
      ClosePositionIff(s, order, quantity, h);
      if order.symbol in s.positions && C.Apply(s, op, h).Ok? {
        var sale :| CanClose(s, order, quantity, sale, h);
      }
    case Mark(symbol, mark) =>
      UpdatePnLIff(s, symbol, mark, h);
  }

  lemma AdditionCharges(s: L.Ledger, order: L.Order, quantity: Quantity, capital: i64, h: HashOrder)
    requires C.Sound(s) && s.totalFees >= 0
    ensures var r := L.AddToLong(s, order, quantity, capital, h);
            r.Ok? ==> r.value.totalFees == s.totalFees + order.fee && order.fee >= 0
  {
    assert s.cash >= 0;
    hide C.Sound, L.AddToLong, CanAdd, CanOpen, Grown, Opened, EntryArgumentsValid;
    if L.AddToLong(s, order, quantity, capital, h).Ok? {
      var s' := L.AddToLong(s, order, quantity, capital, h).value;
      if order.symbol in s.positions {
        AddToLongIff(s, order, quantity, capital, h);
        var added :| CanAdd(s, order, quantity, capital, added, h);
        GrowthCharges(s, order, quantity, capital, added, h, s');
      } else {
        AddOpensIff(s, order, quantity, capital, h);
        var budget := if capital > 0 then L.Slice(capital) else L.AllCash;
        var terms :| CanOpen(s, order.(timestamp := 0), budget, quantity, terms, h);
        EntryCharges(s, order.(timestamp := 0), budget, quantity, terms, h, s');
      }
    }
  }

  lemma GrowthCharges(s: L.Ledger, order: L.Order, quantity: Quantity, capital: i64, added: Addition, h: HashOrder,
                      s': L.Ledger)
    requires order.symbol in s.positions && CanAdd(s, order, quantity, capital, added, h)
    requires Grown(s, order, quantity, added, s')
    ensures s'.totalFees == s.totalFees + order.fee && order.fee >= 0
  {
    hide AdditionOf, L.ValueState, Revalued;
  }

  lemma EntryCharges(s: L.Ledger, order: L.Order, budget: L.Budget, units: Quantity, terms: Terms, h: HashOrder,
                     s': L.Ledger)
    requires CanOpen(s, order, budget, units, terms, h) && Opened(s, order, terms, s')
    ensures s'.totalFees == s.totalFees + order.fee && order.fee >= 0
  {
    hide TermsOf, L.ValueState, Revalued;
  }

  lemma ExecutionCharges(p: Pipeline, execution: ExecutionEvent, h: HashOrder)
    requires C.Sound(p.ledger) && p.ledger.totalFees >= 0
    ensures var q := HandleExecution(p, execution, h).0;
            && q.ledger.totalFees == p.ledger.totalFees + FeeCharged(p, Execution(execution, h))
            && FeeCharged(p, Execution(execution, h)) >= 0
  {
    var s := LC.ApplyExecution(p.store, execution).0;
    var lifecycle := Find(s, execution.localOrderId);
    PipelineBooks(p, execution, h);
    hide HandleExecution, OnExecution, LC.ApplyExecution, Find, C.Sound, Reports, ToUnits, IsNearest;
    ExecutionIff(p.engine, p.ledger, lifecycle, execution, h);
    if BooksNow(p, execution, h) {
      BookedExecutionMovesMoney(p.engine, p.ledger, lifecycle, execution, h);
      var fill, amount :| Reports(p.engine, execution, fill) &&
        MovesMoney(p.ledger, OnExecution(p.engine, p.ledger, lifecycle, execution, h).1, p.engine.symbol,
                   lifecycle.value.request.side, execution.timestampNs, fill, amount);
      ReportsSomething(p.engine, execution, fill);
    }
  }

  /** Handling an execution hands the ledger to the engine just when the store accepts the execution. */
  lemma PipelineBooks(p: Pipeline, execution: ExecutionEvent, h: HashOrder)
    ensures var (store, result) := LC.ApplyExecution(p.store, execution);
            HandleExecution(p, execution, h).0.ledger ==
              if result != LC.Applied then p.ledger
              else OnExecution(p.engine, p.ledger, Find(store, execution.localOrderId), execution, h).1
  {
    hide LC.ApplyExecution, OnExecution, FillOf;
  }

  lemma StepCharges(p: Pipeline, event: PipelineEvent)
    requires C.Sound(p.ledger) && p.ledger.totalFees >= 0
    ensures Step(p, event).ledger.totalFees == p.ledger.totalFees + FeeCharged(p, event)
    ensures FeeCharged(p, event) >= 0
  {
    hide HandleExecution, C.Sound, BooksNow, OperationFee, C.Step;
    match event
    case Execution(execution, h) => ExecutionCharges(p, execution, h);
    case Lifecycle(_) =>
    case LedgerOperation(op, h) => OperationCharges(p.ledger, op, h);
  }

  /** Over every run the fees paid are the initial ones plus those of the executions and operations that were booked. */
  lemma {:induction false} FeesPaidAreFeesCharged(symbol: string, ledger: L.Ledger, events: seq<PipelineEvent>)
    requires symbol != "" && C.Sound(ledger) && ledger.totalFees >= 0
    requires forall e :: e in events ==> Admissible(symbol, e)
    ensures var p := Run(Start(symbol, ledger), events);
            && p.ledger.totalFees == ledger.totalFees + FeesCharged(Start(symbol, ledger), events)
            && p.ledger.totalFees >= ledger.totalFees
  {
    hide Step, FeeCharged, Admissible, C.Sound;
    if events != [] {
      var front := events[..|events| - 1];
      FeesPaidAreFeesCharged(symbol, ledger, front);
      RunKeepsExact(symbol, ledger, front);
      StepCharges(Run(Start(symbol, ledger), front), events[|events| - 1]);
    }
  }

  /** The gateway accepts the execution and the engine cannot book it. */
  ghost predicate FailsNow(p: Pipeline, event: PipelineEvent) {
    && event.Execution? && LC.ApplyExecution(p.store, event.execution).1 == LC.Applied
    && !BooksNow(p, event.execution, event.h)
  }

  ghost predicate Books(p: Pipeline, event: PipelineEvent) {
    event.Execution? && BooksNow(p, event.execution, event.h)
  }

  ghost function CountBooked(p: Pipeline, events: seq<PipelineEvent>): nat {
    if events == [] then 0
    else
      var front := events[..|events| - 1];
      CountBooked(p, front) + (if Books(Run(p, front), events[|events| - 1]) then 1 else 0)
  }

  ghost function CountFailed(p: Pipeline, events: seq<PipelineEvent>): nat {
    if events == [] then 0
    else
      var front := events[..|events| - 1];
      CountFailed(p, front) + (if FailsNow(Run(p, front), events[|events| - 1]) then 1 else 0)
  }

  lemma StepCounts(p: Pipeline, event: PipelineEvent)
    requires C.Sound(p.ledger) && p.ledger.totalFees >= 0
    ensures var q := Step(p, event);
            && q.engine.filledCount == p.engine.filledCount + (if Books(p, event) then 1 else 0)
            && q.engine.apiErrors == p.engine.apiErrors + (if FailsNow(p, event) then 1 else 0)
            && q.engine.lastOrderId == (if Books(p, event) then event.execution.localOrderId else p.engine.lastOrderId)
  {
    if event.Execution? {
      var store := LC.ApplyExecution(p.store, event.execution).0;
      hide C.Sound, LC.ApplyExecution, OnExecution, FillOf, Bookable, Taken;
      var lifecycle := Find(store, event.execution.localOrderId);
      ExecutionIff(p.engine, p.ledger, lifecycle, event.execution, event.h);
      if OnExecution(p.engine, p.ledger, lifecycle, event.execution, event.h).2 {
        var fill :| Bookable(p.engine, p.ledger, lifecycle, event.execution, fill, event.h);
      }
    }
  }

  /** Over every run the engine has counted every booked execution and every accepted one it could not book. */
  lemma {:induction false} CountersCount(symbol: string, ledger: L.Ledger, events: seq<PipelineEvent>)
    requires symbol != "" && C.Sound(ledger) && ledger.totalFees >= 0
    requires forall e :: e in events ==> Admissible(symbol, e)
    ensures var p := Run(Start(symbol, ledger), events);
            && p.engine.filledCount == CountBooked(Start(symbol, ledger), events)
            && p.engine.apiErrors == CountFailed(Start(symbol, ledger), events)
  {
    hide Step, Admissible, C.Sound, Books, FailsNow;
    if events != [] {
      var front := events[..|events| - 1];
      CountersCount(symbol, ledger, front);
      FeesPaidAreFeesCharged(symbol, ledger, front);
      RunKeepsExact(symbol, ledger, front);
      StepCounts(Run(Start(symbol, ledger), front), events[|events| - 1]);
    }
  }
}
