/**
 Exactly-once booking seen from the gateway's public operations: any run of dispatches, cancels,
 connections, fault injections and execution reports from outside books every fill exactly once.
 */
module GatewayExactlyOnce {
  import opened Wrappers
  import opened MachineWords
  import opened SortedKeys
  import opened TableTotals
  import opened BrokerContracts
  import opened StepNormalization
  import opened ExecutionBooking
  import opened ExactlyOnce
  import opened BrokerGatewayModel
  import A = BrokerAgreement
  import LC = OrderLifecycle
  import L = PortfolioLedger
  import C = LedgerConservation

  datatype Operation =
    | Gateway(op: A.GatewayOp)
    | ReportExecution(execution: ExecutionEvent, h: HashOrder)
    | OnLedger(operation: C.Operation, h: HashOrder)

  ghost function Perform(g: Gateway, op: Operation): Gateway {
    match op
    case Gateway(gatewayOp) => A.Step(g, gatewayOp)
    case ReportExecution(execution, h) => HandleExecutionEvent(g, execution, h)
    case OnLedger(operation, h) => g.(pipeline := g.pipeline.(ledger := C.Step(g.pipeline.ledger, operation, h)))
  }

  ghost function PerformAll(g: Gateway, ops: seq<Operation>): Gateway {
    if ops == [] then g else Perform(PerformAll(g, ops[..|ops| - 1]), ops[|ops| - 1])
  }

  predicate Permitted(symbol: string, op: Operation) {
    op.OnLedger? ==> Admissible(symbol, LedgerOperation(op.operation, op.h))
  }

  lemma LifecycleStep(p: Pipeline, event: LC.Event, held: int)
    requires Exact(p, held) && !event.FillEvent? && !event.ReconcileEvent?
    ensures Exact(p.(store := LC.ApplyEvent(p.store, event).0), held)
  {
    hide Exact, LC.ApplyEvent;
    LifecycleKeepsExact(p, event, held);
  }

  lemma OpenOrderKeepsExact(p: Pipeline, order: NormalizedOrder, held: int)
    requires Exact(p, held)
    ensures Exact(p.(store := OpenOrder(p.store, order).0), held)
  {
    hide Exact, LC.Create, LC.Transition;
    var request := order.request;
    var id, ts := request.localOrderId, request.timestampNs;
    var p1 := p.(store := LC.Create(p.store, LifecycleRequest(order)).0);
    var checked := LC.Transition(p1.store, id, RiskChecked, RiskCheckKey(id), ts, Add64(request.sequence, 1));
    var p2 := p1.(store := checked.0);
    LifecycleStep(p, LC.CreateEvent(LifecycleRequest(order)), held);
    LifecycleStep(p1, LC.RiskCheckedEvent(id, RiskCheckKey(id), ts, Add64(request.sequence, 1)), held);
    LifecycleStep(p2, LC.SubmittedEvent(id, SubmitKey(id), ts, Add64(request.sequence, 2)), held);
    RefusedCreateChangesNothing(p.store, LifecycleRequest(order));
  }

  lemma RefusedCreateChangesNothing(s: LC.Store, request: OrderRequest)
    ensures !LC.Create(s, request).1 ==> LC.Create(s, request).0 == s
  {
  }

  lemma AcknowledgementKeepsExact(g: Gateway, ack: OrderAcknowledgement, held: int)
    requires Exact(g.pipeline, held)
    ensures Exact(HandleAcknowledgement(g, ack).pipeline, held)
    ensures HandleAcknowledgement(g, ack).pipeline.engine == g.pipeline.engine
  {
    hide Exact, LC.ApplyAcknowledgement;
    LifecycleStep(g.pipeline, LC.AckEvent(ack), held);
  }

  lemma ReportKeepsExact(g: Gateway, execution: ExecutionEvent, h: HashOrder, held: int)
    requires Exact(g.pipeline, held)
    ensures Exact(HandleExecutionEvent(g, execution, h).pipeline, held)
    ensures HandleExecutionEvent(g, execution, h).pipeline.engine.symbol == g.pipeline.engine.symbol
  {
    hide Exact, HandleExecution;
    ExecutionKeepsExact(g.pipeline, execution, h, held);
  }

  lemma DispatchKeepsExact(g: Gateway, order: NormalizedOrder, allowed: bool, h: HashOrder, held: int)
    requires Exact(g.pipeline, held)
    ensures Exact(DispatchOrder(g, order, allowed, h).0.pipeline, held)
    ensures DispatchOrder(g, order, allowed, h).0.pipeline.engine.symbol == g.pipeline.engine.symbol
  {
    hide Exact, OpenOrder, AnswerTo, AfterSubmit, HandleAcknowledgement, HandleExecutionEvent;
    if allowed && g.adapter.connected {
      OpenOrderKeepsExact(g.pipeline, order, held);
      var (store, refused) := OpenOrder(g.pipeline.store, order);
      if refused.None? {
        var answer := AnswerTo(g.adapter, order, g.adapter.submitCount + 1);
        var submitted := WithStore(g, store).(submitted := g.submitted + 1, adapter := AfterSubmit(g.adapter, order));
        AcknowledgementKeepsExact(submitted, answer.ack, held);
        if answer.execution.Some? {
          ReportKeepsExact(HandleAcknowledgement(submitted, answer.ack), answer.execution.value, h, held);
        }
      }
    }
  }

  lemma CancelKeepsExact(g: Gateway, request: CancelRequest, held: int)
    requires Exact(g.pipeline, held)
    ensures Exact(RequestCancel(g, request).0.pipeline, held)
    ensures RequestCancel(g, request).0.pipeline.engine == g.pipeline.engine
  {
    hide Exact, LC.RequestCancel, LC.ApplyCancelResult;
    LifecycleStep(g.pipeline, LC.CancelEvent(request), held);
    var requested := g.pipeline.(store := LC.RequestCancel(g.pipeline.store, request).0);
    LifecycleStep(requested, LC.CancelResultEvent(CancelAnswer(g.adapter, request)), held);
  }

  lemma PerformKeepsExact(g: Gateway, op: Operation, held: int)
    requires Exact(g.pipeline, held) && Permitted(g.pipeline.engine.symbol, op)
    ensures Exact(Perform(g, op).pipeline, held)
    ensures Perform(g, op).pipeline.engine.symbol == g.pipeline.engine.symbol
  {
    hide Exact, DispatchOrder, RequestCancel, HandleExecutionEvent, C.Step;
    match op
    case Gateway(gatewayOp) =>
      match gatewayOp {
        case Dispatch(order, allowed, h) => DispatchKeepsExact(g, order, allowed, h, held);
        case Cancel(request) => CancelKeepsExact(g, request, held);
        case _ =>
      }
    case ReportExecution(execution, h) => ReportKeepsExact(g, execution, h, held);
    case OnLedger(operation, h) => LedgerStepKeepsExact(g.pipeline, operation, h, held);
  }

  lemma {:induction false} PerformAllKeepsExact(g: Gateway, ops: seq<Operation>, held: int)
    requires Exact(g.pipeline, held)
    requires forall op :: op in ops ==> Permitted(g.pipeline.engine.symbol, op)
    ensures Exact(PerformAll(g, ops).pipeline, held)
    ensures PerformAll(g, ops).pipeline.engine.symbol == g.pipeline.engine.symbol
  {
    hide Exact, Perform, Permitted;
    if ops != [] {
      var front, last := ops[..|ops| - 1], ops[|ops| - 1];
      assert last in ops && forall op :: op in front ==> op in ops;
      PerformAllKeepsExact(g, front, held);
      PerformKeepsExact(PerformAll(g, front), last, held);
    }
  }

  /**
   The gateway books every fill exactly once: after any run of its operations and of execution
   reports, fresh, repeated, stale or malformed, no order has more on the ledger than its recorded
   fill, every order whose latest accepted report was booked has exactly that, and the position is
   what it was plus buys booked less sells booked.
   */
  lemma GatewayBooksExactlyOnce(symbol: string, ledger: L.Ledger, adapter: Adapter, ops: seq<Operation>)
    requires symbol != "" && C.Sound(ledger)
    requires forall op :: op in ops ==> Permitted(symbol, op)
    ensures var p := PerformAll(Gateway.Gateway(Start(symbol, ledger), adapter, 0, 0, 0), ops).pipeline;
            && (forall id :: id in p.booked ==>
                  && id in p.store.records
                  && p.store.records[id].filledQuantity.scale <= MAX_SCALE
                  && 0 < UnitsWorth(p.booked[id].quantity) <= Worth(p.store.records[id].filledQuantity)
                  && p.booked[id].side == p.store.records[id].request.side
                  && (id in p.clean ==>
                        UnitsWorth(p.booked[id].quantity) == Worth(p.store.records[id].filledQuantity)))
            && Held(p.ledger, symbol) == Held(ledger, symbol) + Total(p.booked, Signed)
  {
    hide Exact, PerformAll;
    var g := Gateway.Gateway(Start(symbol, ledger), adapter, 0, 0, 0);
    StartIsExact(symbol, ledger);
    PerformAllKeepsExact(g, ops, Held(ledger, symbol));
    ExactMeans(PerformAll(g, ops).pipeline, Held(ledger, symbol));
  }
}
