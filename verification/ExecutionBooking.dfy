/**
 How the execution engine turns cumulative fill reports into ledger entries, as a function of the
 engine, the ledger and the lifecycle record the gateway shows it.
 */
module ExecutionBooking {
  import opened Wrappers
  import opened MachineWords
  import opened FinancialMath
  import opened SortedKeys
  import opened BrokerContracts
  import opened StepNormalization
  import LC = OrderLifecycle
  import L = PortfolioLedger

  datatype Engine = Engine(
    symbol: string,
    appliedQuantity: map<u64, Quantity>,
    pendingQuantity: map<u64, Quantity>,
    filledCount: nat,
    lastOrderId: u64,
    apiErrors: nat)

  function FreshEngine(symbol: string): Engine {
    Engine(symbol, map[], map[], 0, 0, 0)
  }

  /** A decimal in units of 10^-8, when it is a whole number of them and fits. */
  function ToUnits(d: Decimal64): Option<i64> {
    if d.scale <= SCALE then
      var units := d.units * Pow10(SCALE - d.scale);
      if FitsI64(units) then Some(units) else None
    else
      var p := Pow10(d.scale - SCALE);
      WholeQuotientFits(d.units, p);
      if d.units % p == 0 then Some(d.units / p) else None
  }

  lemma WholeQuotientFits(units: i64, p: nat)
    requires p > 0
    ensures units % p == 0 ==> FitsI64(units / p)
  {
    if units % p == 0 {
      var q := units / p;
      assert units == q * p;
      AbsProduct(q, p);
      MulMono(1, p, Abs(q));
    }
  }

  datatype Fill = Fill(cumulative: Quantity, remaining: Quantity, price: Price, fee: Money, incremental: Quantity)

  /** The part of a cumulative report not yet booked; nothing when the report is unusable or brings nothing new. */
  function FillOf(e: Engine, execution: ExecutionEvent): Option<Fill> {
    var cumulative :- ToUnits(execution.cumulativeFilledQuantity);
    var remaining :- ToUnits(execution.remainingQuantity);
    var price :- ToUnits(execution.fillPrice);
    var fee :- ToUnits(execution.fee);
    if cumulative <= 0 || remaining < 0 || price <= 0 || fee < 0 then None else
    var id := execution.localOrderId;
    var previous := if id in e.appliedQuantity then e.appliedQuantity[id] else 0;
    var incremental :- CheckedSubtract(cumulative, previous);
    if incremental <= 0 then None
    else Some(Fill(cumulative, remaining, price, fee, incremental))
  }

  function Held(s: L.Ledger, symbol: string): int {
    if symbol in s.positions then s.positions[symbol].quantity else 0
  }

  function BookOnLedger(s: L.Ledger, symbol: string, side: OrderSide, strategyId: string, timestamp: u64,
                        fill: Fill, h: HashOrder): Option<L.Ledger>
  {
    var order := L.Order(symbol, fill.price, timestamp, fill.fee, strategyId);
    match side
    case Buy =>
      var cost :- Notional(fill.price, fill.incremental);
      var debit :- CheckedAdd(cost, fill.fee);
      var outcome := if symbol !in s.positions then L.OpenLong(s, order, L.BudgetOf(debit), fill.incremental, h)
                     else L.AddToLong(s, order, fill.incremental, debit, h);
      Booked(outcome)
    case Sell =>
      if Held(s, symbol) <= 0 || fill.incremental > Held(s, symbol) then None
      else Booked(L.ClosePosition(s, order, fill.incremental, h))
  }

  function Booked(outcome: Result<L.Ledger, L.LedgerError>): Option<L.Ledger> {
    match outcome
    case Ok(s) => Some(s)
    case Err(_) => None
  }

  function RecordFill(e: Engine, id: u64, fill: Fill): Engine {
    e.(filledCount := e.filledCount + 1,
       lastOrderId := id,
       appliedQuantity := if fill.remaining > 0 then e.appliedQuantity[id := fill.cumulative]
                          else e.appliedQuantity - {id},
       pendingQuantity := if fill.remaining > 0 then e.pendingQuantity[id := fill.remaining]
                          else e.pendingQuantity - {id})
  }

  /** The engine's reaction to an execution the gateway has accepted, and whether it was booked. */
  function OnExecution(e: Engine, s: L.Ledger, lifecycle: Option<LC.Record>, execution: ExecutionEvent, h: HashOrder)
    : (Engine, L.Ledger, bool)
  {
    var failed := (e.(apiErrors := e.apiErrors + 1), s, false);
    if lifecycle == None || lifecycle.value.request.canonicalSymbol != e.symbol then failed
    else
      match FillOf(e, execution)
      case None => failed
      case Some(fill) =>
        var request := lifecycle.value.request;
        match BookOnLedger(s, e.symbol, request.side, request.sourceId, execution.timestampNs, fill, h)
        case None => failed
        case Some(s') => (RecordFill(e, execution.localOrderId, fill), s', true)
  }
}
