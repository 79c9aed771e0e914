/**
 The deterministic adapter and the gateway as objects. A submission's answers are handed back by
 the adapter and delivered by the gateway in the order the adapter would call back.
 */
module BrokerGateways {
  import opened Wrappers
  import opened MachineWords
  import opened FinancialMath
  import opened SortedKeys
  import opened BrokerContracts
  import M = BrokerGatewayModel
  import X = ExactlyOnce
  import B = ExecutionBooking
  import LC = OrderLifecycle
  import LS = OrderLifecycleStores
  import EE = ExecutionEngines

  class DeterministicBrokerAdapter {
    var m_connected: bool
    var m_everConnected: bool
    var m_submitCount: nat
    var m_connectCount: nat
    var m_disconnectCount: nat
    var m_reconnectCount: nat
    var m_faultDrops: nat
    var m_injectedError: Option<string>
    var m_partialFillRatio: Option<real>
    const m_feeRate: Fraction
    const m_slippageRate: Fraction
    var m_faultConfig: M.FaultConfig
    var m_pendingOrders: map<u64, NormalizedOrder>

    ghost function State(): M.Adapter
      reads this
    {
      M.Adapter(m_connected, m_everConnected, m_submitCount, m_connectCount, m_disconnectCount, m_reconnectCount,
                m_faultDrops, m_injectedError, m_partialFillRatio, m_feeRate, m_slippageRate, m_faultConfig,
                m_pendingOrders)
    }

    constructor (feeRate: Fraction, slippageRate: Fraction)
      ensures !m_connected && m_pendingOrders == map[] && m_submitCount == 0
      ensures m_feeRate == feeRate && m_slippageRate == slippageRate
    {
      m_connected, m_everConnected := false, false;
      m_submitCount, m_connectCount, m_disconnectCount, m_reconnectCount, m_faultDrops := 0, 0, 0, 0, 0;
      m_injectedError, m_partialFillRatio := None, None;
      m_feeRate, m_slippageRate := feeRate, slippageRate;
      m_faultConfig := M.FaultConfig(false, 0, 0);
      m_pendingOrders := map[];
    }

    method Connect()
      modifies this
      ensures State() == M.Connect(old(State()))
    {
      if m_connected {
        return;
      }
      if m_everConnected {
        m_reconnectCount := m_reconnectCount + 1;
      }
      m_connected := true;
      m_everConnected := true;
      m_connectCount := m_connectCount + 1;
    }

    method Disconnect()
      modifies this
      ensures State() == M.Disconnect(old(State()))
    {
      if !m_connected {
        return;
      }
      m_connected := false;
      m_disconnectCount := m_disconnectCount + 1;
    }

    /** The answers to a submission, or nothing when the adapter is not connected. */
    method Submit(order: NormalizedOrder) returns (answer: Option<M.Answer>)
      modifies this
      ensures !old(m_connected) ==> answer == None && State() == old(State())
      ensures old(m_connected) ==>
                && answer == Some(M.AnswerTo(old(State()), order, old(m_submitCount) + 1))
                && State() == M.AfterSubmit(old(State()), order)
    {
      hide M.FillAnswer, M.PendingAfterFill, M.EveryNth;
      if !m_connected {
        return None;
      }
      m_submitCount := m_submitCount + 1;
      var disconnect := m_faultConfig.enabled && M.EveryNth(m_faultConfig.disconnectEveryN, m_submitCount);
      var drop := m_faultConfig.enabled && M.EveryNth(m_faultConfig.dropEveryN, m_submitCount);
      if disconnect {
        m_disconnectCount := m_disconnectCount + 1;
        m_reconnectCount := m_reconnectCount + 1;
        m_connected := true;
      }

      if m_injectedError.Some? || drop {
        var reason := if drop then "deterministic fault drop" else m_injectedError.value;
        if drop {
          m_faultDrops := m_faultDrops + 1;
        }
        m_injectedError := None;
        return Some(M.Answer(M.Rejection(order.request, if drop then Transport else RejectedByBroker, reason), None));
      }
      SameFill(old(State()), State(), order);
      var filled := Fill(order);
      answer := Some(filled);
    }

    static lemma SameFill(a: M.Adapter, b: M.Adapter, order: NormalizedOrder)
      requires a.feeRate == b.feeRate && a.slippageRate == b.slippageRate
      requires a.partialFillRatio == b.partialFillRatio && a.pendingOrders == b.pendingOrders
      ensures M.FillAnswer(a, order) == M.FillAnswer(b, order)
      ensures M.PendingAfterFill(a, order) == M.PendingAfterFill(b, order)
    {
      hide B.ToUnits, Notional, Fee, ApplySlippage, M.FilledUnits, M.Digits;
    }

    /** Accepts and fills an order, remembering it while something remains. */
    method Fill(order: NormalizedOrder) returns (answer: M.Answer)
      modifies this
      ensures answer == M.FillAnswer(old(State()), order)
      ensures State() == old(State()).(partialFillRatio := None,
                                       pendingOrders := M.PendingAfterFill(old(State()), order))
    {
      hide M.FillCosts, M.FilledUnits, M.Digits;
      var request, quantity := order.request, order.normalizedQuantity;
      M.FilledFits(quantity.units, m_partialFillRatio);
      var filled := Decimal64(M.FilledUnits(quantity.units, m_partialFillRatio), quantity.scale);
      var remaining := Decimal64(quantity.units - filled.units, quantity.scale);
      var costs := FillCosts(order, filled);
      m_partialFillRatio := None;
      if costs.None? {
        return M.Answer(M.Rejection(request, Validation, "paper fill arithmetic is not representable"), None);
      }
      var external := "paper-" + M.Digits(request.localOrderId);
      if !remaining.IsZero() {
        m_pendingOrders := m_pendingOrders[request.localOrderId := order];
      }
      answer := M.Answer(
        OrderAcknowledgement(request.localOrderId, external, true, NoFailure, "",
                             request.timestampNs, Add64(request.sequence, 3), AckKey(request.localOrderId)),
        Some(ExecutionEvent(request.localOrderId, external, filled, remaining,
                            Decimal64(costs.value.0, SCALE), Decimal64(costs.value.1, SCALE),
                            request.timestampNs, Add64(request.sequence, 4), FillKey(request.localOrderId))));
    }

    method FillCosts(order: NormalizedOrder, filled: Decimal64) returns (costs: Option<(Price, Money)>)
      ensures costs == M.FillCosts(State(), order, filled)
    {
      hide B.ToUnits, Notional, Fee, ApplySlippage;
      var price := B.ToUnits(M.RequestedPrice(order));
      var quantity := B.ToUnits(filled);
      if price.None? || quantity.None? {
        return None;
      }
      var slipped := ApplySlippage(price.value, m_slippageRate, order.request.side == Buy);
      if slipped.None? {
        return None;
      }
      var notional := Notional(slipped.value, quantity.value);
      if notional.None? {
        return None;
      }
      var fee := Fee(notional.value, m_feeRate);
      if fee.None? || quantity.value <= 0 {
        return None;
      }
      costs := Some((slipped.value, fee.value));
    }

    method Cancel(request: CancelRequest) returns (answer: Option<CancelResult>)
      modifies this
      ensures !old(m_connected) ==> answer == None && State() == old(State())
      ensures old(m_connected) ==>
                && answer == Some(M.CancelAnswer(old(State()), request))
                && State() == M.AfterCancel(old(State()), request)
    {
      if !m_connected {
        return None;
      }
      var erased := request.localOrderId in m_pendingOrders;
      m_pendingOrders := m_pendingOrders - {request.localOrderId};
      answer := Some(CancelResult(request.localOrderId, if erased then CancelAccepted else AlreadyFilled,
                                  NoFailure, "", request.timestampNs, Add64(request.sequence, 1),
                                  CancelResultKey(request.localOrderId)));
    }

    method Reconcile() returns (orderStates: map<u64, OrderLifecycleState>)
      ensures orderStates == M.ReconcileStates(State())
    {
      orderStates := map id | id in m_pendingOrders :: PartiallyFilled;
    }
  }

  class BrokerGateway {
    const m_lifecycle: LS.OrderLifecycleStore
    const m_adapter: DeterministicBrokerAdapter
    const m_engine: EE.ExecutionEngine
    var m_totalOrdersSubmitted: nat
    var m_totalFillsReceived: nat
    var m_totalApiErrors: nat

    // The history of what was booked on the ledger through this gateway.
    ghost var booked: map<u64, X.Booking>
    ghost var clean: set<u64>

    ghost function Pipeline(): X.Pipeline
      reads this, m_lifecycle, m_engine, m_engine.m_portfolio
    {
      X.Pipeline(m_lifecycle.State(), m_engine.State(), m_engine.m_portfolio.State(), booked, clean)
    }

    ghost function State(): M.Gateway
      reads this, m_lifecycle, m_adapter, m_engine, m_engine.m_portfolio
    {
      M.Gateway(Pipeline(), m_adapter.State(), m_totalOrdersSubmitted, m_totalFillsReceived, m_totalApiErrors)
    }

    constructor (adapter: DeterministicBrokerAdapter, engine: EE.ExecutionEngine)
      ensures m_adapter == adapter && m_engine == engine && fresh(m_lifecycle)
      ensures m_lifecycle.State() == LC.EMPTY_STORE && booked == map[] && clean == {}
      ensures m_totalOrdersSubmitted == m_totalFillsReceived == m_totalApiErrors == 0
    {
      m_lifecycle := new LS.OrderLifecycleStore();
      m_adapter := adapter;
      m_engine := engine;
      m_totalOrdersSubmitted, m_totalFillsReceived, m_totalApiErrors := 0, 0, 0;
      booked, clean := map[], {};
    }

    /** Dispatches a normalized order once risk has decided; the adapter's answers arrive before it returns. */
    method DispatchOrder(order: NormalizedOrder, allowed: bool, h: HashOrder) returns (refusal: Option<M.Refusal>)
      modifies this, m_lifecycle, m_adapter, m_engine, m_engine.m_portfolio
      ensures (State(), refusal) == M.DispatchOrder(old(State()), order, allowed, h)
    {
      hide LC.Create, LC.Transition, M.AnswerTo, M.AfterSubmit, M.HandleAcknowledgement, M.HandleExecutionEvent;
      if !allowed {
        return Some(M.RiskDenied);
      }
      if !m_adapter.m_connected {
        m_totalApiErrors := m_totalApiErrors + 1;
        return Some(M.NotConnected);
      }
      refusal := OpenOrder(order);
      if refusal.Some? {
        m_totalApiErrors := m_totalApiErrors + 1;
        return;
      }
      m_totalOrdersSubmitted := m_totalOrdersSubmitted + 1;
      var answer := m_adapter.Submit(order);
      HandleAcknowledgement(answer.value.ack);
      if answer.value.execution.Some? {
        HandleExecution(answer.value.execution.value, h);
      }
      refusal := None;
    }

    method OpenOrder(order: NormalizedOrder) returns (refusal: Option<M.Refusal>)
      modifies m_lifecycle
      ensures (m_lifecycle.State(), refusal) == M.OpenOrder(old(m_lifecycle.State()), order)
    {
      hide LC.Create, LC.Transition;
      var request := order.request;
      RefusedCreate(m_lifecycle.State(), M.LifecycleRequest(order));
      var created := m_lifecycle.CreateOrder(M.LifecycleRequest(order));
      if !created {
        return Some(M.InvalidIdentity);
      }
      var result := m_lifecycle.MarkRiskChecked(request.localOrderId, RiskCheckKey(request.localOrderId),
                                                request.timestampNs, Add64(request.sequence, 1));
      if result != LC.Applied {
        return Some(M.LifecycleRefused);
      }
      result := m_lifecycle.MarkSubmitted(request.localOrderId, SubmitKey(request.localOrderId),
                                          request.timestampNs, Add64(request.sequence, 2));
      if result != LC.Applied {
        return Some(M.LifecycleRefused);
      }
      refusal := None;
    }

    static lemma RefusedCreate(s: LC.Store, request: OrderRequest)
      ensures !LC.Create(s, request).1 ==> LC.Create(s, request).0 == s
    {
    }

    method RequestCancel(request: CancelRequest) returns (accepted: bool)
      modifies this, m_lifecycle, m_adapter
      ensures (State(), accepted) == M.RequestCancel(old(State()), request)
    {
      if !m_adapter.m_connected {
        return false;
      }
      RefusedCancel(m_lifecycle.State(), request);
      hide LC.RequestCancel, LC.ApplyCancelResult;
      var result := m_lifecycle.RequestCancel(request);
      if result != LC.Applied {
        return false;
      }
      var answer := m_adapter.Cancel(request);
      HandleCancel(answer.value);
      accepted := true;
    }

    static lemma RefusedCancel(s: LC.Store, request: CancelRequest)
      ensures LC.RequestCancel(s, request).1 != LC.Applied ==> LC.RequestCancel(s, request).0 == s
    {
    }

    method HandleAcknowledgement(ack: OrderAcknowledgement)
      modifies this, m_lifecycle
      ensures State() == M.HandleAcknowledgement(old(State()), ack)
    {
      RefusedAcknowledgement(m_lifecycle.State(), ack);
      hide LC.ApplyAcknowledgement;
      var applied := m_lifecycle.ApplyAcknowledgement(ack);
      if applied != LC.Applied {
        m_totalApiErrors := m_totalApiErrors + 1;
        return;
      }
      if !ack.accepted {
        m_totalApiErrors := m_totalApiErrors + 1;
      }
    }

    static lemma RefusedAcknowledgement(s: LC.Store, ack: OrderAcknowledgement)
      ensures LC.ApplyAcknowledgement(s, ack).1 != LC.Applied ==> LC.ApplyAcknowledgement(s, ack).0 == s
    {
    }

    /** Applies an execution report to the lifecycle and, when it is accepted, lets the engine book it. */
    method HandleExecution(execution: ExecutionEvent, h: HashOrder)
      modifies this, m_lifecycle, m_engine, m_engine.m_portfolio
      ensures State() == M.HandleExecutionEvent(old(State()), execution, h)
    {
      RefusedExecution(m_lifecycle.State(), execution);
      hide LC.ApplyExecution, B.OnExecution, B.FillOf, DeterministicBrokerAdapter.State;
      ghost var before := Pipeline();
      var applied := m_lifecycle.ApplyExecution(execution);
      if applied != LC.Applied {
        if applied != LC.Duplicate {
          m_totalApiErrors := m_totalApiErrors + 1;
        }
        return;
      }
      m_totalFillsReceived := m_totalFillsReceived + 1;
      var lifecycle := m_lifecycle.Find(execution.localOrderId);
      var ok := m_engine.OnBrokerExecution(lifecycle, execution, h);
      ghost var next := X.HandleExecution(before, execution, h).0;
      booked, clean := next.booked, next.clean;
      assert Pipeline() == next;
    }

    static lemma RefusedExecution(s: LC.Store, execution: ExecutionEvent)
      ensures LC.ApplyExecution(s, execution).1 != LC.Applied ==> LC.ApplyExecution(s, execution).0 == s
      ensures LC.ApplyExecution(s, execution).1 == LC.Applied ==>
                execution.localOrderId in LC.ApplyExecution(s, execution).0.records
    {
    }

    method HandleCancel(result: CancelResult)
      modifies this, m_lifecycle
      ensures State() == M.HandleCancel(old(State()), result)
    {
      RefusedCancelResult(m_lifecycle.State(), result);
      hide LC.ApplyCancelResult;
      var applied := m_lifecycle.ApplyCancelResult(result);
      if applied != LC.Applied {
        m_totalApiErrors := m_totalApiErrors + 1;
      }
    }

    static lemma RefusedCancelResult(s: LC.Store, result: CancelResult)
      ensures LC.ApplyCancelResult(s, result).1 != LC.Applied ==> LC.ApplyCancelResult(s, result).0 == s
    {
    }
  }
}
