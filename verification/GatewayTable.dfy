/**
 What the gateway does, as the lifecycle events it applies: exactly when a dispatch is refused, which
 events an order or a cancel consists of, and what is counted.
 */
module GatewayTable {
  import opened Wrappers
  import opened MachineWords
  import opened SortedKeys
  import opened BrokerContracts
  import opened ExactlyOnce
  import opened BrokerGatewayModel
  import opened LifecycleTable
  import A = BrokerAgreement
  import LC = OrderLifecycle

  // ---------------------------------------------------------------------------
  // Opening an order
  // ---------------------------------------------------------------------------

  /** The request recorded for an order: the caller's, with the normalized quantity and prices. */
  predicate IsRecordedRequest(order: NormalizedOrder, r: OrderRequest) {
    var q := order.request;
    && r.localOrderId == q.localOrderId && r.canonicalSymbol == q.canonicalSymbol && r.side == q.side
    && r.orderType == q.orderType && r.sourceId == q.sourceId && r.timestampNs == q.timestampNs
    && r.sequence == q.sequence && r.idempotencyKey == q.idempotencyKey
    && r.quantity == order.normalizedQuantity && r.limitPrice == order.normalizedLimitPrice
    && r.stopPrice == order.normalizedStopPrice && r.referencePrice == order.normalizedReferencePrice
  }

  function Later(sequence: u64, n: nat): u64 {
    (sequence + n) % 0x1_0000_0000_0000_0000
  }

  /** The three events that open an order: created, checked against risk, submitted. */
  ghost predicate AreOpening(order: NormalizedOrder, events: seq<LC.Event>) {
    var q := order.request;
    && |events| == 3 && events[0].CreateEvent? && IsRecordedRequest(order, events[0].request)
    && events[1] == LC.RiskCheckedEvent(q.localOrderId, RiskCheckKey(q.localOrderId), q.timestampNs,
                                        Later(q.sequence, 1))
    && events[2] == LC.SubmittedEvent(q.localOrderId, SubmitKey(q.localOrderId), q.timestampNs, Later(q.sequence, 2))
  }

  /** The order is new to the store, and so are its key and the two keys composed for it. */
  predicate MayOpen(s: LC.Store, order: NormalizedOrder) {
    var q := order.request;
    && q.localOrderId != 0 && q.canonicalSymbol != "" && order.normalizedQuantity.units > 0
    && order.normalizedQuantity.scale <= 12 && q.idempotencyKey != Named("")
    && q.idempotencyKey !in s.appliedKeys && q.localOrderId !in s.records
  }

  predicate MayProceed(s: LC.Store, order: NormalizedOrder) {
    var q := order.request;
    && RiskCheckKey(q.localOrderId) !in s.appliedKeys && q.idempotencyKey != RiskCheckKey(q.localOrderId)
    && SubmitKey(q.localOrderId) !in s.appliedKeys && q.idempotencyKey != SubmitKey(q.localOrderId)
  }

  lemma OpeningRuns(s: LC.Store, a: LC.Event, b: LC.Event, c: LC.Event)
    ensures LC.Run(s, [a, b, c]) == LC.ApplyEvent(LC.ApplyEvent(LC.ApplyEvent(s, a).0, b).0, c).0
  {
    hide LC.ApplyEvent;
    assert [a, b, c][..2] == [a, b] && [a, b][..1] == [a] && [a][..0] == [];
    assert LC.Run(s, [a]) == LC.ApplyEvent(s, a).0;
    assert LC.Run(s, [a, b]) == LC.ApplyEvent(LC.Run(s, [a]), b).0;
  }

  function Opening(order: NormalizedOrder): seq<LC.Event> {
    var q := order.request;
    [LC.CreateEvent(LifecycleRequest(order)),
     LC.RiskCheckedEvent(q.localOrderId, RiskCheckKey(q.localOrderId), q.timestampNs, Later(q.sequence, 1)),
     LC.SubmittedEvent(q.localOrderId, SubmitKey(q.localOrderId), q.timestampNs, Later(q.sequence, 2))]
  }

  lemma OpeningIs(order: NormalizedOrder)
    ensures AreOpening(order, Opening(order))
  {
  }

  /** Opening an order in terms of the lifecycle's answers to its events. */
  lemma OpenOrderAnswers(s: LC.Store, order: NormalizedOrder)
    ensures var events := Opening(order);
            var created := LC.ApplyEvent(s, events[0]);
            var checked := LC.ApplyEvent(created.0, events[1]);
            var submitted := LC.ApplyEvent(checked.0, events[2]);
            OpenOrder(s, order) ==
              if created.1 != LC.Applied then (s, Some(InvalidIdentity))
              else if checked.1 != LC.Applied then (checked.0, Some(LifecycleRefused))
              else (submitted.0, if submitted.1 != LC.Applied then Some(LifecycleRefused) else None)
  {
    hide LC.Create, LC.Transition, LifecycleRequest;
    assert LC.Create(s, LifecycleRequest(order)).1 ||
           LC.Create(s, LifecycleRequest(order)) == (s, false) by {
      CreateRefuses(s, LifecycleRequest(order));
    }
  }

  lemma CreateRefuses(s: LC.Store, request: OrderRequest)
    ensures !LC.Create(s, request).1 ==> LC.Create(s, request).0 == s
  {
    hide LC.Commit;
  }

  lemma MayOpenIff(s: LC.Store, order: NormalizedOrder)
    ensures MayApply(s, Opening(order)[0]) <==> MayOpen(s, order)
  {
  }

  /** A new order with its clock as requested, to which each next event is later or as late. */
  lemma NextIsOnTime(r: LC.Record, order: NormalizedOrder, n: nat)
    requires r.lastTimestampNs == order.request.timestampNs && r.lastSequence == Later(order.request.sequence, n)
    ensures OnTime(r, order.request.timestampNs, Later(order.request.sequence, n + 1))
  {
  }

  lemma OpenedMayCheck(s: LC.Store, order: NormalizedOrder)
    requires MayOpen(s, order)
    ensures var q, created := order.request, LC.ApplyEvent(s, Opening(order)[0]).0;
            && MayApply(s, Opening(order)[0])
            && q.localOrderId in created.records && created.records[q.localOrderId].state == Created
            && created.records[q.localOrderId].lastTimestampNs == q.timestampNs
            && created.records[q.localOrderId].lastSequence == Later(q.sequence, 0)
            && created.appliedKeys == s.appliedKeys + {q.idempotencyKey}
  {
    AppliedBecomes(s, Opening(order)[0]);
    hide LC.ApplyEvent;
  }

  lemma CheckedMaySubmit(s: LC.Store, order: NormalizedOrder)
    requires MayOpen(s, order)
    ensures var q, created := order.request, LC.ApplyEvent(s, Opening(order)[0]).0;
            var checked := LC.ApplyEvent(created, Opening(order)[1]).0;
            && (MayApply(created, Opening(order)[1]) <==> RiskCheckKey(q.localOrderId) !in created.appliedKeys)
            && (MayApply(created, Opening(order)[1]) ==>
                  && (MayApply(checked, Opening(order)[2]) <==> SubmitKey(q.localOrderId) !in checked.appliedKeys)
                  && checked.appliedKeys == created.appliedKeys + {RiskCheckKey(q.localOrderId)})
            && (!MayApply(created, Opening(order)[1]) ==>
                  checked == created && !MayApply(checked, Opening(order)[2]))
  {
    var q, created := order.request, LC.ApplyEvent(s, Opening(order)[0]).0;
    OpenedMayCheck(s, order);
    NextIsOnTime(created.records[q.localOrderId], order, 0);
    hide LC.ApplyEvent, OnTime, Later;
    if MayApply(created, Opening(order)[1]) {
      AppliedBecomes(created, Opening(order)[1]);
      var checked := LC.ApplyEvent(created, Opening(order)[1]).0;
      NextIsOnTime(checked.records[q.localOrderId], order, 1);
    } else {
      RefusedIff(created, Opening(order)[1]);
    }
  }

  /** An order is opened by its three events, or refused because it is not new or one of its own keys is spent. */
  lemma OpenOrderIff(s: LC.Store, order: NormalizedOrder)
    ensures var (s', refused) := OpenOrder(s, order);
            && (refused == Some(InvalidIdentity) <==> !MayOpen(s, order))
            && (refused == Some(LifecycleRefused) <==> MayOpen(s, order) && !MayProceed(s, order))
            && (refused == None <==> MayOpen(s, order) && MayProceed(s, order))
            && s' == if MayOpen(s, order) then LC.Run(s, Opening(order)) else s
  {
    var events := Opening(order);
    var created := LC.ApplyEvent(s, events[0]).0;
    var checked := LC.ApplyEvent(created, events[1]).0;
    OpenOrderAnswers(s, order);
    MayOpenIff(s, order);
    AppliedIff(s, events[0]);
    AppliedIff(created, events[1]);
    AppliedIff(checked, events[2]);
    hide LC.ApplyEvent, MayApply, OpenOrder, LC.Run;
    OpeningRuns(s, events[0], events[1], events[2]);
    if MayOpen(s, order) {
      OpenedMayCheck(s, order);
      CheckedMaySubmit(s, order);
      if !MayApply(created, events[1]) {
        RefusedIff(checked, events[2]);
      }
    }
  }

  // ---------------------------------------------------------------------------
  // Dispatching
  // ---------------------------------------------------------------------------

  /** The broker's answer to an order as lifecycle events: its acknowledgement, and its execution if there is one. */
  function AnswerEvents(answer: Answer): seq<LC.Event> {
    [LC.AckEvent(answer.ack)] + if answer.execution.Some? then [LC.FillEvent(answer.execution.value)] else []
  }

  lemma {:induction false} RunInTwo(s: LC.Store, front: seq<LC.Event>, rest: seq<LC.Event>)
    ensures LC.Run(s, front + rest) == LC.Run(LC.Run(s, front), rest)
    decreases |rest|
  {
    hide LC.ApplyEvent;
    if rest == [] {
      assert front + rest == front;
    } else {
      var n := |rest| - 1;
      assert (front + rest)[..|front + rest| - 1] == front + rest[..n];
      RunInTwo(s, front, rest[..n]);
    }
  }

  lemma AnswerRuns(s: LC.Store, answer: Answer)
    ensures var acknowledged := LC.ApplyEvent(s, LC.AckEvent(answer.ack)).0;
            LC.Run(s, AnswerEvents(answer)) ==
              if answer.execution.Some? then LC.ApplyEvent(acknowledged, LC.FillEvent(answer.execution.value)).0
              else acknowledged
  {
    hide LC.ApplyEvent;
    var ack := LC.AckEvent(answer.ack);
    assert [ack][..0] == [] && LC.Run(s, [ack]) == LC.ApplyEvent(s, ack).0;
    if answer.execution.Some? {
      var fill := LC.FillEvent(answer.execution.value);
      assert AnswerEvents(answer) == [ack, fill] && [ack, fill][..1] == [ack];
    } else {
      assert AnswerEvents(answer) == [ack];
    }
  }

  lemma AcknowledgementIs(g: Gateway, ack: OrderAcknowledgement)
    ensures var (store, result) := LC.ApplyEvent(g.pipeline.store, LC.AckEvent(ack));
            var g' := HandleAcknowledgement(g, ack);
            && g'.pipeline == g.pipeline.(store := store) && g'.adapter == g.adapter
            && g'.submitted == g.submitted && g'.fills == g.fills
            && g'.apiErrors == g.apiErrors + (if result == LC.Applied && ack.accepted then 0 else 1)
  {
    Unapplied(g.pipeline.store, LC.AckEvent(ack));
    hide LC.ApplyAcknowledgement;
  }

  lemma Unapplied(s: LC.Store, event: LC.Event)
    ensures LC.ApplyEvent(s, event).1 != LC.Applied ==> LC.ApplyEvent(s, event).0 == s
  {
    AppliedIff(s, event);
    hide LC.ApplyEvent, MayApply;
    if LC.ApplyEvent(s, event).1 != LC.Applied {
      RefusedIff(s, event);
    }
  }

  lemma ExecutionEventIs(g: Gateway, execution: ExecutionEvent, h: HashOrder)
    ensures var (store, result) := LC.ApplyEvent(g.pipeline.store, LC.FillEvent(execution));
            var g' := HandleExecutionEvent(g, execution, h);
            && g'.pipeline == HandleExecution(g.pipeline, execution, h).0 && g'.pipeline.store == store
            && g'.adapter == g.adapter && g'.submitted == g.submitted
            && g'.fills == g.fills + (if result == LC.Applied then 1 else 0)
            && g'.apiErrors == g.apiErrors + (if result == LC.Applied || result == LC.Duplicate then 0 else 1)
  {
    Unapplied(g.pipeline.store, LC.FillEvent(execution));
    HandledStore(g.pipeline, execution, h);
    hide LC.ApplyExecution, HandleExecution;
  }

  lemma HandledStore(p: Pipeline, execution: ExecutionEvent, h: HashOrder)
    ensures var (q, result) := HandleExecution(p, execution, h);
            && result == LC.ApplyExecution(p.store, execution).1
            && (result == LC.Applied ==> q.store == LC.ApplyExecution(p.store, execution).0)
            && (result != LC.Applied ==> q == p)
  {
    hide LC.ApplyExecution;
  }

  /** The broker's answer runs its events in the store, and only an execution reaches the engine and the ledger. */
  lemma DeliverIs(g: Gateway, answer: Answer, h: HashOrder)
    ensures var g' := Deliver(g, answer, h);
            && g'.submitted == g.submitted && g'.adapter == g.adapter
            && g'.pipeline.store == LC.Run(g.pipeline.store, AnswerEvents(answer))
            && (answer.execution == None ==> g'.pipeline == g.pipeline.(store := g'.pipeline.store))
  {
    AnswerRuns(g.pipeline.store, answer);
    hide AnswerEvents, LC.Run, LC.ApplyEvent, HandleAcknowledgement, HandleExecutionEvent;
    AcknowledgementIs(g, answer.ack);
    if answer.execution.Some? {
      ExecutionEventIs(HandleAcknowledgement(g, answer.ack), answer.execution.value, h);
    }
  }

  lemma DispatchAsks(g: Gateway, order: NormalizedOrder, h: HashOrder)
    requires g.adapter.connected
    ensures var (store, refused) := OpenOrder(g.pipeline.store, order);
            DispatchOrder(g, order, true, h) ==
              if refused.Some? then (CountError(WithStore(g, store)), refused)
              else
                var sent :=
                  WithStore(g, store).(submitted := g.submitted + 1, adapter := AfterSubmit(g.adapter, order));
                (Deliver(sent, AnswerTo(g.adapter, order, g.adapter.submitCount + 1), h), None)
  {
    hide OpenOrder, AfterSubmit, AnswerTo, Deliver;
  }

  /**
   A dispatch is refused when risk denies it, then without a connection, then when the order is not
   new, then when a key composed for it is spent; a refusal submits nothing. Otherwise the order goes
   to the broker, and the store takes the three events that open it and those of the broker's answer.
   */
  lemma DispatchIff(g: Gateway, order: NormalizedOrder, allowed: bool, h: HashOrder)
    ensures var (g', refused) := DispatchOrder(g, order, allowed, h);
            var s := g.pipeline.store;
            && refused == (if !allowed then Some(RiskDenied)
                           else if !g.adapter.connected then Some(NotConnected)
                           else if !MayOpen(s, order) then Some(InvalidIdentity)
                           else if !MayProceed(s, order) then Some(LifecycleRefused)
                           else None)
            && (refused.Some? ==>
                  && g'.adapter == g.adapter && g'.submitted == g.submitted && g'.fills == g.fills
                  && g'.apiErrors == g.apiErrors + (if allowed then 1 else 0)
                  && g'.pipeline == g.pipeline.(store := if refused == Some(LifecycleRefused)
                                                         then LC.Run(s, Opening(order)) else s))
            && (refused == None ==>
                  var answer := AnswerTo(g.adapter, order, g.adapter.submitCount + 1);
                  var ready := g.pipeline.(store := LC.Run(s, Opening(order)));
                  && g'.submitted == g.submitted + 1 && g'.adapter == AfterSubmit(g.adapter, order)
                  && g'.pipeline.store == LC.Run(s, Opening(order) + AnswerEvents(answer))
                  && (answer.execution == None ==> g'.pipeline == ready.(store := g'.pipeline.store)))
  {
    var s := g.pipeline.store;
    OpenOrderIff(s, order);
    hide OpenOrder, Opening, AnswerTo, AfterSubmit, MayOpen, MayProceed, LC.Run, Deliver, AnswerEvents;
    if allowed && g.adapter.connected {
      DispatchAsks(g, order, h);
      hide DispatchOrder;
      if MayOpen(s, order) && MayProceed(s, order) {
        var answer := AnswerTo(g.adapter, order, g.adapter.submitCount + 1);
        var store := LC.Run(s, Opening(order));
        var sent := WithStore(g, store).(submitted := g.submitted + 1, adapter := AfterSubmit(g.adapter, order));
        RunInTwo(s, Opening(order), AnswerEvents(answer));
        DeliverIs(sent, answer, h);
      }
    }
  }

  // ---------------------------------------------------------------------------
  // Cancelling
  // ---------------------------------------------------------------------------

  /** The broker's answer to a cancel: accepted while it holds the order, and otherwise already filled. */
  predicate IsCancelAnswer(a: Adapter, request: CancelRequest, result: CancelResult) {
    && result.localOrderId == request.localOrderId && result.failure == NoFailure && result.reason == ""
    && result.disposition == (if request.localOrderId in a.pendingOrders then CancelAccepted else AlreadyFilled)
    && result.timestampNs == request.timestampNs && result.sequence == Later(request.sequence, 1)
    && result.eventKey == CancelResultKey(request.localOrderId)
  }

  /**
   A cancel is taken if and only if the adapter is connected and the store takes the request; the
   store then takes the broker's answer too, and the broker no longer holds the order.
   */
  lemma CancelIff(g: Gateway, request: CancelRequest)
    ensures var (g', taken) := RequestCancel(g, request);
            var s := g.pipeline.store;
            && (taken <==> g.adapter.connected && MayApply(s, LC.CancelEvent(request)))
            && (!taken ==> g' == g)
            && (taken ==>
                  exists result ::
                    && IsCancelAnswer(g.adapter, request, result)
                    && g'.pipeline == g.pipeline.(store := LC.ApplyEvent(LC.ApplyEvent(s, LC.CancelEvent(request)).0,
                                                                         LC.CancelResultEvent(result)).0)
                    && g'.submitted == g.submitted && g'.fills == g.fills
                    && g'.adapter == g.adapter.(pendingOrders := g.adapter.pendingOrders - {request.localOrderId})
                    && g'.apiErrors == g.apiErrors + (if MayApply(LC.ApplyEvent(s, LC.CancelEvent(request)).0,
                                                                  LC.CancelResultEvent(result)) then 0 else 1))
  {
    var s := g.pipeline.store;
    AppliedIff(s, LC.CancelEvent(request));
    hide MayApply, LC.RequestCancel;
    if RequestCancel(g, request).1 {
      var result, requested := CancelAnswer(g.adapter, request), LC.ApplyEvent(s, LC.CancelEvent(request)).0;
      AppliedIff(requested, LC.CancelResultEvent(result));
      Unapplied(requested, LC.CancelResultEvent(result));
      hide LC.ApplyCancelResult;
      assert IsCancelAnswer(g.adapter, request, result);
    }
  }

  /** A reconciliation lists the orders the broker holds, each as partially filled. */
  lemma ReconciliationLists(a: Adapter)
    ensures ReconcileStates(a).Keys == a.pendingOrders.Keys
    ensures forall id :: id in a.pendingOrders ==> ReconcileStates(a)[id] == PartiallyFilled
  {
  }

  // ---------------------------------------------------------------------------
  // Connections
  // ---------------------------------------------------------------------------

  /** Every disconnection but a lasting one was followed by a reconnection. */
  ghost predicate Balanced(a: Adapter) {
    && (a.connected ==> a.everConnected)
    && (if a.everConnected then a.disconnectCount + (if a.connected then 1 else 0) == a.reconnectCount + 1
        else a.disconnectCount == a.reconnectCount == a.connectCount == a.submitCount == 0)
    && (a.everConnected ==> 0 < a.connectCount <= a.reconnectCount + 1)
    && a.faultDrops <= a.submitCount
  }

  lemma ConnectionIff(a: Adapter)
    ensures Connect(a).connected && !Disconnect(a).connected
    ensures Balanced(a) ==> Balanced(Connect(a)) && Balanced(Disconnect(a))
    ensures Connect(a).connectCount == a.connectCount + (if a.connected then 0 else 1)
    ensures Disconnect(a).disconnectCount == a.disconnectCount + (if a.connected then 1 else 0)
    ensures Connect(a).pendingOrders == a.pendingOrders == Disconnect(a).pendingOrders
  {
  }

  lemma StepKeepsBalance(g: Gateway, op: A.GatewayOp)
    requires Balanced(g.adapter)
    ensures Balanced(A.Step(g, op).adapter)
  {
    match op
    case Dispatch(order, allowed, h) =>
      DispatchIff(g, order, allowed, h);
      hide DispatchOrder, AnswerTo, MayOpen, MayProceed, Opening, AnswerEvents, LC.Run, FillAnswer;
    case Cancel(request) =>
      CancelIff(g, request);
      hide RequestCancel, MayApply, LC.ApplyEvent;
    case ConnectOp => ConnectionIff(g.adapter);
    case DisconnectOp => ConnectionIff(g.adapter);
    case Configure(_, _, _) =>
  }

  /** Over any run through the gateway the adapter's connection counters balance. */
  lemma {:induction false} ConnectionsBalance(g: Gateway, ops: seq<A.GatewayOp>)
    requires Balanced(g.adapter)
    ensures Balanced(A.Run(g, ops).adapter)
  {
    hide A.Step, Balanced;
    if ops != [] {
      ConnectionsBalance(g, ops[..|ops| - 1]);
      StepKeepsBalance(A.Run(g, ops[..|ops| - 1]), ops[|ops| - 1]);
    }
  }
}
