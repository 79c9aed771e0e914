/**
 The deterministic broker adapter and the gateway in front of it, as functions of their state. The
 adapter answers a submission with an acknowledgement and, when accepted, one execution; the
 gateway feeds both to the lifecycle store, and accepted executions to the bound engine.
 */
module BrokerGatewayModel {
  import opened Wrappers
  import opened MachineWords
  import opened FinancialMath
  import opened SortedKeys
  import opened BrokerContracts
  import opened StepNormalization
  import opened ExecutionBooking
  import opened ExactlyOnce
  import LC = OrderLifecycle

  // ---------------------------------------------------------------------------
  // Adapter
  // ---------------------------------------------------------------------------

  datatype FaultConfig = FaultConfig(enabled: bool, dropEveryN: nat, disconnectEveryN: nat)

  datatype Adapter = Adapter(
    connected: bool,
    everConnected: bool,
    submitCount: nat,
    connectCount: nat,
    disconnectCount: nat,
    reconnectCount: nat,
    faultDrops: nat,
    injectedError: Option<string>,
    partialFillRatio: Option<real>,
    feeRate: Fraction,
    slippageRate: Fraction,
    faults: FaultConfig,
    pendingOrders: map<u64, NormalizedOrder>)

  function Connect(a: Adapter): Adapter {
    if a.connected then a
    else a.(connected := true, everConnected := true, connectCount := a.connectCount + 1,
            reconnectCount := if a.everConnected then a.reconnectCount + 1 else a.reconnectCount)
  }

  function Disconnect(a: Adapter): Adapter {
    if !a.connected then a else a.(connected := false, disconnectCount := a.disconnectCount + 1)
  }

  function Digits(n: nat): string {
    if n < 10 then ['0' + n as char] else Digits(n / 10) + ['0' + (n % 10) as char]
  }

  /** The first fill: the whole quantity, or the truncated ratio of it when that is a proper part. */
  function FilledUnits(units: int, ratio: Option<real>): int {
    match ratio
    case None => units
    case Some(r) =>
      var partial := (units as real * r).Floor;
      if 0 < partial < units then partial else units
  }

  function RequestedPrice(order: NormalizedOrder): Decimal64 {
    if order.normalizedLimitPrice.Some? then order.normalizedLimitPrice.value
    else if order.normalizedStopPrice.Some? then order.normalizedStopPrice.value
    else if order.normalizedReferencePrice.Some? then order.normalizedReferencePrice.value
    else Decimal64(0, 0)
  }

  /** Price after slippage and the fee on the filled amount, when the arithmetic is representable. */
  function FillCosts(a: Adapter, order: NormalizedOrder, filled: Decimal64): Option<(Price, Money)> {
    var price :- ToUnits(RequestedPrice(order));
    var quantity :- ToUnits(filled);
    var slipped :- ApplySlippage(price, a.slippageRate, order.request.side == Buy);
    var notional :- Notional(slipped, quantity);
    var fee :- Fee(notional, a.feeRate);
    if quantity <= 0 then None else Some((slipped, fee))
  }

  predicate EveryNth(n: nat, count: nat) {
    n > 0 && count % n == 0
  }

  datatype Answer = Answer(ack: OrderAcknowledgement, execution: Option<ExecutionEvent>)

  function Rejection(request: OrderRequest, failure: FailureCategory, reason: string): OrderAcknowledgement {
    OrderAcknowledgement(request.localOrderId, "", false, failure, reason,
                         request.timestampNs, Add64(request.sequence, 3), AckKey(request.localOrderId))
  }

  /** The acknowledgement and execution for a submitted order, given the submission's ordinal. */
  function AnswerTo(a: Adapter, order: NormalizedOrder, submitNumber: nat): Answer {
    var request := order.request;
    var drop := a.faults.enabled && EveryNth(a.faults.dropEveryN, submitNumber);
    if a.injectedError.Some? || drop then
      Answer(Rejection(request, if drop then Transport else RejectedByBroker,
                       if drop then "deterministic fault drop" else a.injectedError.value), None)
    else FillAnswer(a, order)
  }

  /** The answer to an order that met no fault: accepted and filled, if the arithmetic is representable. */
  function FillAnswer(a: Adapter, order: NormalizedOrder): Answer {
    var request, quantity := order.request, order.normalizedQuantity;
    FilledFits(quantity.units, a.partialFillRatio);
    var filled := Decimal64(FilledUnits(quantity.units, a.partialFillRatio), quantity.scale);
    var remaining := Decimal64(quantity.units - filled.units, quantity.scale);
    match FillCosts(a, order, filled)
    case None => Answer(Rejection(request, Validation, "paper fill arithmetic is not representable"), None)
    case Some((price, fee)) =>
      var external := "paper-" + Digits(request.localOrderId);
      Answer(
        OrderAcknowledgement(request.localOrderId, external, true, NoFailure, "",
                             request.timestampNs, Add64(request.sequence, 3), AckKey(request.localOrderId)),
        Some(ExecutionEvent(request.localOrderId, external, filled, remaining,
                            Decimal64(price, SCALE), Decimal64(fee, SCALE),
                            request.timestampNs, Add64(request.sequence, 4), FillKey(request.localOrderId))))
  }

  lemma FilledFits(units: i64, ratio: Option<real>)
    ensures FitsI64(FilledUnits(units, ratio)) && FitsI64(units - FilledUnits(units, ratio))
    ensures units > 0 ==> 0 < FilledUnits(units, ratio) <= units
  {
  }

  function AfterSubmit(a: Adapter, order: NormalizedOrder): Adapter {
    var n := a.submitCount + 1;
    var lost := a.faults.enabled && EveryNth(a.faults.disconnectEveryN, n);
    var drop := a.faults.enabled && EveryNth(a.faults.dropEveryN, n);
    var counted := a.(submitCount := n,
                      disconnectCount := if lost then a.disconnectCount + 1 else a.disconnectCount,
                      reconnectCount := if lost then a.reconnectCount + 1 else a.reconnectCount,
                      faultDrops := if drop then a.faultDrops + 1 else a.faultDrops);
    if a.injectedError.Some? || drop then counted.(injectedError := None)
    else counted.(partialFillRatio := None, pendingOrders := PendingAfterFill(a, order))
  }

  function PendingAfterFill(a: Adapter, order: NormalizedOrder): map<u64, NormalizedOrder> {
    var execution := FillAnswer(a, order).execution;
    if execution.Some? && !execution.value.remainingQuantity.IsZero()
    then a.pendingOrders[order.request.localOrderId := order]
    else a.pendingOrders
  }

  function CancelAnswer(a: Adapter, request: CancelRequest): CancelResult {
    CancelResult(request.localOrderId,
                 if request.localOrderId in a.pendingOrders then CancelAccepted else AlreadyFilled,
                 NoFailure, "", request.timestampNs, Add64(request.sequence, 1),
                 CancelResultKey(request.localOrderId))
  }

  function AfterCancel(a: Adapter, request: CancelRequest): Adapter {
    a.(pendingOrders := a.pendingOrders - {request.localOrderId})
  }

  /** The order states a reconciliation with the broker reports. */
  function ReconcileStates(a: Adapter): map<u64, OrderLifecycleState> {
    map id | id in a.pendingOrders :: PartiallyFilled
  }

  // ---------------------------------------------------------------------------
  // Gateway
  // ---------------------------------------------------------------------------

  datatype Gateway = Gateway(
    pipeline: Pipeline,
    adapter: Adapter,
    submitted: nat,
    fills: nat,
    apiErrors: nat)

  datatype Refusal = RiskDenied | NotConnected | InvalidIdentity | LifecycleRefused

  function WithStore(g: Gateway, store: LC.Store): Gateway {
    g.(pipeline := g.pipeline.(store := store))
  }

  function CountError(g: Gateway): Gateway {
    g.(apiErrors := g.apiErrors + 1)
  }

  function HandleAcknowledgement(g: Gateway, ack: OrderAcknowledgement): Gateway {
    var (store, result) := LC.ApplyAcknowledgement(g.pipeline.store, ack);
    if result != LC.Applied then CountError(g)
    else if !ack.accepted then CountError(WithStore(g, store))
    else WithStore(g, store)
  }

  function HandleExecutionEvent(g: Gateway, execution: ExecutionEvent, h: HashOrder): Gateway {
    var (pipeline, result) := HandleExecution(g.pipeline, execution, h);
    if result == LC.Applied then g.(pipeline := pipeline, fills := g.fills + 1)
    else if result == LC.Duplicate then g
    else CountError(g)
  }

  function HandleCancel(g: Gateway, result: CancelResult): Gateway {
    var (store, applied) := LC.ApplyCancelResult(g.pipeline.store, result);
    if applied != LC.Applied then CountError(g) else WithStore(g, store)
  }

  /** The request the lifecycle records: the caller's, with the normalized quantity and prices. */
  function LifecycleRequest(order: NormalizedOrder): OrderRequest {
    order.request.(quantity := order.normalizedQuantity,
                   limitPrice := order.normalizedLimitPrice,
                   stopPrice := order.normalizedStopPrice,
                   referencePrice := order.normalizedReferencePrice)
  }

  /** Creation and the two internal transitions; the store as far as they got, and whether all were applied. */
  function OpenOrder(s: LC.Store, order: NormalizedOrder): (LC.Store, Option<Refusal>) {
    var request := order.request;
    var (created, ok) := LC.Create(s, LifecycleRequest(order));
    if !ok then (s, Some(InvalidIdentity)) else
    var (checked, first) := LC.Transition(created, request.localOrderId, RiskChecked,
                                          RiskCheckKey(request.localOrderId), request.timestampNs,
                                          Add64(request.sequence, 1));
    if first != LC.Applied then (checked, Some(LifecycleRefused)) else
    var (submitted, second) := LC.Transition(checked, request.localOrderId, Submitted,
                                             SubmitKey(request.localOrderId), request.timestampNs,
                                             Add64(request.sequence, 2));
    (submitted, if second != LC.Applied then Some(LifecycleRefused) else None)
  }

  /** The adapter's answers, delivered synchronously in the order it sends them. */
  function Deliver(g: Gateway, answer: Answer, h: HashOrder): Gateway {
    var acknowledged := HandleAcknowledgement(g, answer.ack);
    if answer.execution.Some? then HandleExecutionEvent(acknowledged, answer.execution.value, h) else acknowledged
  }

  function DispatchOrder(g: Gateway, order: NormalizedOrder, allowed: bool, h: HashOrder): (Gateway, Option<Refusal>) {
    if !allowed then (g, Some(RiskDenied))
    else if !g.adapter.connected then (CountError(g), Some(NotConnected))
    else
      var (store, refused) := OpenOrder(g.pipeline.store, order);
      if refused.Some? then (CountError(WithStore(g, store)), refused)
      else
        var answer := AnswerTo(g.adapter, order, g.adapter.submitCount + 1);
        var submitted := WithStore(g, store).(submitted := g.submitted + 1, adapter := AfterSubmit(g.adapter, order));
        (Deliver(submitted, answer, h), None)
  }

  function RequestCancel(g: Gateway, request: CancelRequest): (Gateway, bool) {
    if !g.adapter.connected then (g, false)
    else
      var (store, result) := LC.RequestCancel(g.pipeline.store, request);
      if result != LC.Applied then (g, false)
      else
        var answer := CancelAnswer(g.adapter, request);
        (HandleCancel(WithStore(g, store).(adapter := AfterCancel(g.adapter, request)), answer), true)
  }
}
