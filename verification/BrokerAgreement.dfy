/**
 The gateway and its broker never disagree: whatever is dispatched, canceled, connected or
 disconnected, the orders pending at the adapter are exactly the partially filled orders of the
 lifecycle store, and every order that was dispatched has come to rest.
 */
module BrokerAgreement {
  import opened Wrappers
  import opened MachineWords
  import opened SortedKeys
  import opened BrokerContracts
  import opened ExactlyOnce
  import opened BrokerGatewayModel
  import LC = OrderLifecycle
  import LI = LifecycleInvariant

  ghost predicate AtRest(state: OrderLifecycleState) {
    state == Filled || state == PartiallyFilled || state == Rejected || state == Canceled
  }

  /** None of the keys the gateway and the adapter compose for this order has been spent. */
  ghost predicate Unspent(s: LC.Store, id: u64) {
    && RiskCheckKey(id) !in s.appliedKeys
    && SubmitKey(id) !in s.appliedKeys
    && AckKey(id) !in s.appliedKeys
    && FillKey(id) !in s.appliedKeys
    && CancelResultKey(id) !in s.appliedKeys
  }

  ghost predicate StoreAgrees(s: LC.Store, pending: map<u64, NormalizedOrder>) {
    && LI.Sound(s)
    && (forall id :: id in pending <==> id in s.records && s.records[id].state == PartiallyFilled)
    && (forall id :: id in s.records ==> AtRest(s.records[id].state))
    && (forall id :: id !in s.records ==> Unspent(s, id))
    && (forall id :: id in s.records && s.records[id].state != Canceled ==> CancelResultKey(id) !in s.appliedKeys)
  }

  ghost predicate Agree(g: Gateway) {
    StoreAgrees(g.pipeline.store, g.adapter.pendingOrders)
  }

  // ---------------------------------------------------------------------------
  // Dispatch
  // ---------------------------------------------------------------------------

  /** The order as it stands between two steps of one dispatch. */
  ghost predicate Dispatching(before: LC.Store, s: LC.Store, order: NormalizedOrder, state: OrderLifecycleState,
                              sequence: u64, spent: set<EventKey>)
  {
    var id := order.request.localOrderId;
    && LI.Sound(s)
    && id !in before.records && id in s.records
    && s.records == before.records[id := s.records[id]]
    && s.records[id].state == state
    && s.records[id].request == LifecycleRequest(order)
    && s.records[id].lastTimestampNs == order.request.timestampNs
    && s.records[id].lastSequence == sequence
    && s.appliedKeys == before.appliedKeys + spent
  }

  lemma NextNumberIsNotOlder(timestampNs: u64, sequence: u64, n: u64)
    requires 0 < n < 10
    ensures !LC.IsOlder(timestampNs, Add64(sequence, n - 1), timestampNs, Add64(sequence, n))
  {
  }

  lemma CreateStarts(s: LC.Store, order: NormalizedOrder)
    requires LI.Sound(s) && LC.Create(s, LifecycleRequest(order)).1
    ensures Dispatching(s, LC.Create(s, LifecycleRequest(order)).0, order, Created, Add64(order.request.sequence, 0),
                        {order.request.idempotencyKey})
  {
    LI.EventKeepsSound(s, LC.CreateEvent(LifecycleRequest(order)));
    hide LI.Sound;
  }

  lemma TransitionAdvances(before: LC.Store, s: LC.Store, order: NormalizedOrder, from: OrderLifecycleState,
                           to: OrderLifecycleState, key: EventKey, n: u64, spent: set<EventKey>)
    requires 0 < n < 10
    requires Dispatching(before, s, order, from, Add64(order.request.sequence, n - 1), spent)
    requires LC.CanTransition(from, to) && key !in s.appliedKeys && !key.IsEmpty()
    requires to == RiskChecked || to == Submitted
    ensures var id, ts := order.request.localOrderId, order.request.timestampNs;
            var (s', result) := LC.Transition(s, id, to, key, ts, Add64(order.request.sequence, n));
            result == LC.Applied
            && Dispatching(before, s', order, to, Add64(order.request.sequence, n), spent + {key})
  {
    hide LI.Sound, LC.CanTransition, LC.IsOlder;
    var id, ts := order.request.localOrderId, order.request.timestampNs;
    NextNumberIsNotOlder(ts, order.request.sequence, n);
    TransitionKeepsSound(s, id, to, key, ts, Add64(order.request.sequence, n));
  }

  lemma TransitionKeepsSound(s: LC.Store, id: u64, to: OrderLifecycleState, key: EventKey, timestampNs: u64,
      sequence: u64)
    requires LI.Sound(s) && (to == RiskChecked || to == Submitted)
    ensures LI.Sound(LC.Transition(s, id, to, key, timestampNs, sequence).0)
  {
    hide LI.Sound;
    LI.EventKeepsSound(s, if to == RiskChecked then LC.RiskCheckedEvent(id, key, timestampNs, sequence)
                          else LC.SubmittedEvent(id, key, timestampNs, sequence));
  }

  lemma OpenOrderSubmits(s: LC.Store, order: NormalizedOrder)
    requires LI.Sound(s) && LC.Create(s, LifecycleRequest(order)).1
    requires order.request.idempotencyKey.Named? && Unspent(s, order.request.localOrderId)
    ensures OpenOrder(s, order).1 == None
    ensures Dispatching(s, OpenOrder(s, order).0, order, Submitted, Add64(order.request.sequence, 2),
                        {order.request.idempotencyKey, RiskCheckKey(order.request.localOrderId),
                         SubmitKey(order.request.localOrderId)})
  {
    hide LI.Sound, LC.Create, LC.Transition;
    var id, key := order.request.localOrderId, order.request.idempotencyKey;
    var created := LC.Create(s, LifecycleRequest(order)).0;
    CreateStarts(s, order);
    TransitionAdvances(s, created, order, Created, RiskChecked, RiskCheckKey(id), 1, {key});
    var checked := LC.Transition(created, id, RiskChecked, RiskCheckKey(id), order.request.timestampNs,
                                 Add64(order.request.sequence, 1)).0;
    assert {key} + {RiskCheckKey(id)} == {key, RiskCheckKey(id)};
    TransitionAdvances(s, checked, order, RiskChecked, Submitted, SubmitKey(id), 2, {key, RiskCheckKey(id)});
    assert {key, RiskCheckKey(id)} + {SubmitKey(id)} == {key, RiskCheckKey(id), SubmitKey(id)};
  }

  lemma AcknowledgementAnswers(before: LC.Store, s: LC.Store, order: NormalizedOrder, ack: OrderAcknowledgement,
                               spent: set<EventKey>)
    requires Dispatching(before, s, order, Submitted, Add64(order.request.sequence, 2), spent)
    requires ack.localOrderId == order.request.localOrderId && ack.timestampNs == order.request.timestampNs
    requires ack.sequence == Add64(order.request.sequence, 3) && ack.eventKey == AckKey(ack.localOrderId)
    requires ack.eventKey !in s.appliedKeys && (ack.accepted ==> ack.externalOrderId != "")
    ensures var (s', result) := LC.ApplyAcknowledgement(s, ack);
            result == LC.Applied
            && Dispatching(before, s', order, if ack.accepted then Accepted else Rejected,
                           Add64(order.request.sequence, 3), spent + {ack.eventKey})
  {
    hide LI.Sound, LC.IsOlder;
    NextNumberIsNotOlder(order.request.timestampNs, order.request.sequence, 3);
    LI.EventKeepsSound(s, LC.AckEvent(ack));
  }

  lemma ExecutionAnswers(before: LC.Store, s: LC.Store, order: NormalizedOrder, execution: ExecutionEvent,
                         spent: set<EventKey>)
    requires Dispatching(before, s, order, Accepted, Add64(order.request.sequence, 3), spent)
    requires execution.localOrderId == order.request.localOrderId
    requires execution.timestampNs == order.request.timestampNs
    requires execution.sequence == Add64(order.request.sequence, 4)
    requires execution.eventKey == FillKey(execution.localOrderId) && execution.eventKey !in s.appliedKeys
    requires execution.cumulativeFilledQuantity.units > 0 && execution.remainingQuantity.units >= 0
    requires execution.cumulativeFilledQuantity.scale == execution.remainingQuantity.scale
    requires execution.remainingQuantity.scale == order.normalizedQuantity.scale
    requires execution.cumulativeFilledQuantity.units + execution.remainingQuantity.units
          == order.normalizedQuantity.units
    ensures var (s', result) := LC.ApplyExecution(s, execution);
            result == LC.Applied
            && Dispatching(before, s', order,
                           if execution.remainingQuantity.units == 0 then Filled else PartiallyFilled,
                           Add64(order.request.sequence, 4), spent + {execution.eventKey})
  {
    hide LI.Sound, LC.IsOlder;
    NextNumberIsNotOlder(order.request.timestampNs, order.request.sequence, 4);
    NothingFilledYet(s, order.request.localOrderId);
    LI.EventKeepsSound(s, LC.FillEvent(execution));
  }

  lemma NothingFilledYet(s: LC.Store, id: u64)
    requires LI.Sound(s) && id in s.records && s.records[id].state == Accepted
    ensures s.records[id].filledQuantity.units == 0
  {
    assert LI.RecordSound(id, s.records[id]);
  }

  /** What the adapter's answer always satisfies. */
  lemma AnswerIsWellFormed(a: Adapter, order: NormalizedOrder, n: nat)
    requires order.normalizedQuantity.units > 0
    ensures var answer := AnswerTo(a, order, n);
            && answer.ack.localOrderId == order.request.localOrderId
            && answer.ack.timestampNs == order.request.timestampNs
            && answer.ack.sequence == Add64(order.request.sequence, 3)
            && answer.ack.eventKey == AckKey(order.request.localOrderId)
            && (answer.ack.accepted ==> answer.ack.externalOrderId != "")
            && (answer.ack.accepted <==> answer.execution.Some?)
            && (answer.execution.Some? ==>
                  var e := answer.execution.value;
                  && e.localOrderId == order.request.localOrderId
                  && e.timestampNs == order.request.timestampNs
                  && e.sequence == Add64(order.request.sequence, 4)
                  && e.eventKey == FillKey(order.request.localOrderId)
                  && e.cumulativeFilledQuantity.units > 0 && e.remainingQuantity.units >= 0
                  && e.cumulativeFilledQuantity.scale == e.remainingQuantity.scale == order.normalizedQuantity.scale
                  && e.cumulativeFilledQuantity.units + e.remainingQuantity.units == order.normalizedQuantity.units)
  {
    hide FillCosts, FilledUnits, Digits;
    FilledFits(order.normalizedQuantity.units, a.partialFillRatio);
  }

  lemma PendingAfterSubmit(a: Adapter, order: NormalizedOrder)
    ensures var execution := AnswerTo(a, order, a.submitCount + 1).execution;
            AfterSubmit(a, order).pendingOrders ==
              if execution.Some? && execution.value.remainingQuantity.units != 0
              then a.pendingOrders[order.request.localOrderId := order] else a.pendingOrders
  {
    hide FillCosts, FilledUnits, Digits;
  }

  lemma StoreAfterExecution(p: Pipeline, execution: ExecutionEvent, h: HashOrder)
    ensures HandleExecution(p, execution, h).0.store == LC.ApplyExecution(p.store, execution).0
    ensures HandleExecution(p, execution, h).1 == LC.ApplyExecution(p.store, execution).1
  {
    LI.EventIsCommit(p.store, LC.FillEvent(execution));
  }

  /** No order but `id` differs between the two stores. */
  ghost predicate OnlyTouches(s: LC.Store, s': LC.Store, id: u64) {
    forall other :: other != id ==>
      && (other in s'.records <==> other in s.records)
      && (other in s.records ==> s'.records[other] == s.records[other])
  }

  /** A dispatch that leaves only its own order changed, at rest, restores the agreement. */
  lemma RestedOrderAgrees(before: LC.Store, s: LC.Store, order: NormalizedOrder, state: OrderLifecycleState,
                          sequence: u64, spent: set<EventKey>,
                          pending: map<u64, NormalizedOrder>, pending': map<u64, NormalizedOrder>)
    requires StoreAgrees(before, pending) && Dispatching(before, s, order, state, sequence, spent)
    requires AtRest(state) && state != Canceled
    requires order.request.idempotencyKey.Named?
    requires spent <= {order.request.idempotencyKey, RiskCheckKey(order.request.localOrderId),
                       SubmitKey(order.request.localOrderId), AckKey(order.request.localOrderId),
                       FillKey(order.request.localOrderId)}
    requires pending' == if state == PartiallyFilled then pending[order.request.localOrderId := order] else pending
    ensures StoreAgrees(s, pending') && OnlyTouches(before, s, order.request.localOrderId)
  {
    hide LI.Sound, AtRest;
    assert forall id :: id in s.records && id != order.request.localOrderId ==>
        id in before.records && s.records[id] == before.records[id];
    OtherKeysStayUnspent(before, s, order, spent);
    hide Unspent;
  }

  lemma OtherKeysStayUnspent(before: LC.Store, s: LC.Store, order: NormalizedOrder, spent: set<EventKey>)
    requires s.appliedKeys == before.appliedKeys + spent && order.request.idempotencyKey.Named?
    requires spent <= {order.request.idempotencyKey, RiskCheckKey(order.request.localOrderId),
                       SubmitKey(order.request.localOrderId), AckKey(order.request.localOrderId),
                       FillKey(order.request.localOrderId)}
    ensures forall id :: id != order.request.localOrderId && Unspent(before, id) ==> Unspent(s, id)
    ensures forall id :: CancelResultKey(id) in s.appliedKeys ==> CancelResultKey(id) in before.appliedKeys
  {
  }

  /**
   An allowed dispatch of a fresh order on a connected adapter always comes to rest within the call:
   filled, partially filled or rejected, and the agreement is kept.
   */
  lemma DispatchComesToRest(g: Gateway, order: NormalizedOrder, h: HashOrder)
    requires Agree(g) && g.adapter.connected && order.request.idempotencyKey.Named?
    requires LC.Create(g.pipeline.store, LifecycleRequest(order)).1
    ensures var (g', refusal) := DispatchOrder(g, order, true, h);
            && refusal == None
            && Agree(g')
            && order.request.localOrderId in g'.pipeline.store.records
            && g'.pipeline.store.records[order.request.localOrderId].state in {Filled, PartiallyFilled, Rejected}
            && g'.pipeline.store.records[order.request.localOrderId].request == LifecycleRequest(order)
            && order.request.localOrderId !in g.pipeline.store.records
            && OnlyTouches(g.pipeline.store, g'.pipeline.store, order.request.localOrderId)
  {
    var s, id, base := g.pipeline.store, order.request.localOrderId, order.request.sequence;
    hide LI.Sound, StoreAgrees, LC.Create, LC.ApplyAcknowledgement, LC.ApplyExecution, OpenOrder;
    hide AnswerTo, AfterSubmit, DispatchOrder;
    FreshIsUnspent(s, g.adapter.pendingOrders, order);
    OpenOrderSubmits(s, order);
    DispatchDelivers(g, order, h);
    var entered := OpenOrder(s, order).0;
    var answer := AnswerTo(g.adapter, order, g.adapter.submitCount + 1);
    AnswerIsWellFormed(g.adapter, order, g.adapter.submitCount + 1);
    PendingAfterSubmit(g.adapter, order);
    var spent := {order.request.idempotencyKey, RiskCheckKey(id), SubmitKey(id)};
    AcknowledgementAnswers(s, entered, order, answer.ack, spent);
    var acknowledged := LC.ApplyAcknowledgement(entered, answer.ack).0;
    var g' := DispatchOrder(g, order, true, h).0;
    if answer.execution.Some? {
      var execution := answer.execution.value;
      ExecutionAnswers(s, acknowledged, order, execution, spent + {AckKey(id)});
      RestedOrderAgrees(s, g'.pipeline.store, order,
                        if execution.remainingQuantity.units == 0 then Filled else PartiallyFilled, Add64(base, 4),
                        spent + {AckKey(id)} + {FillKey(id)}, g.adapter.pendingOrders, g'.adapter.pendingOrders);
    } else {
      RestedOrderAgrees(s, g'.pipeline.store, order, Rejected, Add64(base, 3), spent + {AckKey(id)},
                        g.adapter.pendingOrders, g'.adapter.pendingOrders);
    }
  }

  /** The store after a dispatch is the opened order with the adapter's answers applied in turn. */
  lemma DispatchDelivers(g: Gateway, order: NormalizedOrder, h: HashOrder)
    requires g.adapter.connected && OpenOrder(g.pipeline.store, order).1 == None
    ensures var (g', refusal) := DispatchOrder(g, order, true, h);
            var entered := OpenOrder(g.pipeline.store, order).0;
            var answer := AnswerTo(g.adapter, order, g.adapter.submitCount + 1);
            var acknowledged := LC.ApplyAcknowledgement(entered, answer.ack).0;
            && refusal == None
            && g'.adapter == AfterSubmit(g.adapter, order)
            && g'.pipeline.store == if answer.execution.Some?
                                    then LC.ApplyExecution(acknowledged, answer.execution.value).0
                                    else acknowledged
  {
    hide LC.ApplyAcknowledgement, LC.ApplyExecution, OpenOrder, AnswerTo, AfterSubmit, Deliver;
    var submitted := WithStore(g, OpenOrder(g.pipeline.store, order).0)
                       .(submitted := g.submitted + 1, adapter := AfterSubmit(g.adapter, order));
    DeliveredStore(submitted, AnswerTo(g.adapter, order, g.adapter.submitCount + 1), h);
  }

  lemma DeliveredStore(g: Gateway, answer: Answer, h: HashOrder)
    ensures var acknowledged := LC.ApplyAcknowledgement(g.pipeline.store, answer.ack).0;
            && Deliver(g, answer, h).adapter == g.adapter
            && Deliver(g, answer, h).pipeline.store == if answer.execution.Some?
                                                       then LC.ApplyExecution(acknowledged, answer.execution.value).0
                                                       else acknowledged
  {
    hide LC.ApplyAcknowledgement, LC.ApplyExecution, HandleExecution;
    RefusedAckChangesNothing(g.pipeline.store, answer.ack);
    var afterAck := HandleAcknowledgement(g, answer.ack);
    if answer.execution.Some? {
      StoreAfterExecution(afterAck.pipeline, answer.execution.value, h);
      RefusedFillChangesNothing(afterAck.pipeline.store, answer.execution.value);
    }
  }

  lemma RefusedAckChangesNothing(s: LC.Store, ack: OrderAcknowledgement)
    ensures LC.ApplyAcknowledgement(s, ack).1 != LC.Applied ==> LC.ApplyAcknowledgement(s, ack).0 == s
  {
  }

  lemma RefusedFillChangesNothing(s: LC.Store, execution: ExecutionEvent)
    ensures LC.ApplyExecution(s, execution).1 != LC.Applied ==> LC.ApplyExecution(s, execution).0 == s
  {
  }

  lemma FreshIsUnspent(s: LC.Store, pending: map<u64, NormalizedOrder>, order: NormalizedOrder)
    requires StoreAgrees(s, pending) && LC.Create(s, LifecycleRequest(order)).1
    ensures order.normalizedQuantity.units > 0
    ensures order.request.localOrderId !in s.records
    ensures Unspent(s, order.request.localOrderId) && LI.Sound(s)
  {
  }

  // ---------------------------------------------------------------------------
  // Cancel
  // ---------------------------------------------------------------------------

  lemma CancelIsRequested(s: LC.Store, pending: map<u64, NormalizedOrder>, request: CancelRequest)
    requires StoreAgrees(s, pending) && LC.RequestCancel(s, request).1 == LC.Applied
    ensures var id, s' := request.localOrderId, LC.RequestCancel(s, request).0;
            && LI.Sound(s')
            && id in s.records && s.records[id].state == PartiallyFilled
            && s'.records == s.records[id := s'.records[id]]
            && s'.records[id].state == CancelRequested
            && s'.records[id].lastTimestampNs == request.timestampNs
            && s'.records[id].lastSequence == request.sequence
            && s'.appliedKeys == s.appliedKeys + {request.idempotencyKey}
  {
    LI.EventKeepsSound(s, LC.CancelEvent(request));
    assert AtRest(s.records[request.localOrderId].state);
    hide LI.Sound;
  }

  lemma CancelIsConfirmed(s: LC.Store, result: CancelResult)
    requires LI.Sound(s) && result.localOrderId in s.records
    requires s.records[result.localOrderId].state == CancelRequested
    requires exists n: u64 :: s.records[result.localOrderId].lastSequence == n && result.sequence == Add64(n, 1)
    requires s.records[result.localOrderId].lastTimestampNs == result.timestampNs
    requires !result.eventKey.IsEmpty() && result.eventKey !in s.appliedKeys && result.disposition == CancelAccepted
    ensures var id := result.localOrderId;
            var (s', applied) := LC.ApplyCancelResult(s, result);
            && applied == LC.Applied && LI.Sound(s')
            && id in s'.records
            && s'.records == s.records[id := s'.records[id]]
            && s'.records[id].state == Canceled
            && s'.appliedKeys == s.appliedKeys + {result.eventKey}
  {
    var n := s.records[result.localOrderId].lastSequence;
    assert Add64(n, 0) == n;
    NextNumberIsNotOlder(result.timestampNs, n, 1);
    LI.EventKeepsSound(s, LC.CancelResultEvent(result));
    hide LI.Sound, LC.IsOlder;
  }

  /** A cancel that is accepted takes a partially filled order to canceled, in the store and at the adapter. */
  lemma CancelKeepsAgree(g: Gateway, request: CancelRequest)
    requires Agree(g) && request.idempotencyKey.Named?
    ensures Agree(RequestCancel(g, request).0)
    ensures RequestCancel(g, request).1 ==>
              && request.localOrderId in g.pipeline.store.records
              && g.pipeline.store.records[request.localOrderId].state == PartiallyFilled
              && request.localOrderId in RequestCancel(g, request).0.pipeline.store.records
              && RequestCancel(g, request).0.pipeline.store.records[request.localOrderId].state == Canceled
  {
    hide LI.Sound, LC.RequestCancel, LC.ApplyCancelResult;
    var s := g.pipeline.store;
    if g.adapter.connected && LC.RequestCancel(s, request).1 == LC.Applied {
      var requested := LC.RequestCancel(s, request).0;
      CancelIsRequested(s, g.adapter.pendingOrders, request);
      var answer := CancelAnswer(g.adapter, request);
      CancelIsConfirmed(requested, answer);
      var confirmed := LC.ApplyCancelResult(requested, answer).0;
      CanceledOrderAgrees(s, confirmed, request, g.adapter.pendingOrders);
    }
  }

  lemma CanceledOrderAgrees(before: LC.Store, s: LC.Store, request: CancelRequest, pending: map<u64, NormalizedOrder>)
    requires StoreAgrees(before, pending) && LI.Sound(s) && request.idempotencyKey.Named?
    requires var id := request.localOrderId;
             && id in before.records && id in s.records
             && s.records == before.records[id := s.records[id]]
             && s.records[id].state == Canceled
             && s.appliedKeys == before.appliedKeys + {request.idempotencyKey} + {CancelResultKey(id)}
    ensures StoreAgrees(s, pending - {request.localOrderId})
  {
    hide LI.Sound;
  }

  // ---------------------------------------------------------------------------
  // Every run
  // ---------------------------------------------------------------------------

  datatype GatewayOp =
    | Dispatch(order: NormalizedOrder, allowed: bool, h: HashOrder)
    | Cancel(request: CancelRequest)
    | ConnectOp
    | DisconnectOp
    | Configure(injectedError: Option<string>, partialFillRatio: Option<real>, faults: FaultConfig)

  ghost function Step(g: Gateway, op: GatewayOp): Gateway {
    match op
    case Dispatch(order, allowed, h) => DispatchOrder(g, order, allowed, h).0
    case Cancel(request) => RequestCancel(g, request).0
    case ConnectOp => g.(adapter := Connect(g.adapter))
    case DisconnectOp => g.(adapter := Disconnect(g.adapter))
    case Configure(error, ratio, faults) =>
      g.(adapter := g.adapter.(injectedError := error, partialFillRatio := ratio, faults := faults))
  }

  ghost function Run(g: Gateway, ops: seq<GatewayOp>): Gateway {
    if ops == [] then g else Step(Run(g, ops[..|ops| - 1]), ops[|ops| - 1])
  }

  /** Callers choose their own texts as keys. */
  predicate CallerKeys(op: GatewayOp) {
    match op
    case Dispatch(order, _, _) => order.request.idempotencyKey.Named?
    case Cancel(request) => request.idempotencyKey.Named?
    case _ => true
  }

  lemma StepKeepsAgree(g: Gateway, op: GatewayOp)
    requires Agree(g) && CallerKeys(op)
    ensures Agree(Step(g, op))
  {
    hide LI.Sound, LC.Create, LC.Transition, Deliver, AnswerTo, AfterSubmit, RequestCancel;
    match op
    case Dispatch(order, allowed, h) =>
      if allowed && g.adapter.connected && LC.Create(g.pipeline.store, LifecycleRequest(order)).1 {
        DispatchComesToRest(g, order, h);
      }
    case Cancel(request) =>
      CancelKeepsAgree(g, request);
    case _ =>
  }

  lemma {:induction false} RunKeepsAgree(g: Gateway, ops: seq<GatewayOp>)
    requires Agree(g) && forall op :: op in ops ==> CallerKeys(op)
    ensures Agree(Run(g, ops))
  {
    hide Agree, Step, CallerKeys;
    if ops != [] {
      var front, last := ops[..|ops| - 1], ops[|ops| - 1];
      assert last in ops && forall op :: op in front ==> op in ops;
      RunKeepsAgree(g, front);
      StepKeepsAgree(Run(g, front), last);
    }
  }

  /**
   Over every run from an empty gateway, what a reconciliation with the broker reports is exactly
   the set of partially filled orders, and every other order is filled, rejected or canceled.
   */
  lemma BrokerAgreesWithStore(adapter: Adapter, pipeline: Pipeline, ops: seq<GatewayOp>)
    requires pipeline.store == LC.EMPTY_STORE && adapter.pendingOrders == map[]
    requires forall op :: op in ops ==> CallerKeys(op)
    ensures var g := Run(Gateway(pipeline, adapter, 0, 0, 0), ops);
            && ReconcileStates(g.adapter) ==
               (map id | id in g.pipeline.store.records && g.pipeline.store.records[id].state == PartiallyFilled
                  :: PartiallyFilled)
            && (forall id :: id in g.pipeline.store.records ==>
                  g.pipeline.store.records[id].state in {Filled, PartiallyFilled, Rejected, Canceled})
  {
    LI.RunKeepsSound([]);
    RunKeepsAgree(Gateway(pipeline, adapter, 0, 0, 0), ops);
  }

  // ---------------------------------------------------------------------------
  // What enters the store, and what changes in it
  // ---------------------------------------------------------------------------

  /** The store differs in the order `id` alone, which keeps what was requested if it was there before. */
  ghost predicate Touches(s: LC.Store, s': LC.Store, id: u64) {
    && OnlyTouches(s, s', id)
    && (id in s.records ==> id in s'.records && s'.records[id].request == s.records[id].request)
  }

  lemma EventTouches(s: LC.Store, event: LC.Event)
    ensures Touches(s, LC.ApplyEvent(s, event).0, event.Order())
    ensures !event.CreateEvent? && event.Order() !in s.records ==> event.Order() !in LC.ApplyEvent(s, event).0.records
  {
    LI.EventTouchesOneOrder(s, event);
    hide LC.ApplyEvent;
  }

  /** Opening an order the store knows changes nothing; opening a new one adds its request or nothing. */
  lemma OpenOrderTouches(s: LC.Store, order: NormalizedOrder)
    ensures var id, s' := order.request.localOrderId, OpenOrder(s, order).0;
            && Touches(s, s', id)
            && (id in s.records ==> s' == s && OpenOrder(s, order).1.Some?)
            && (id in s'.records && id !in s.records ==> s'.records[id].request == LifecycleRequest(order))
  {
    var id, ts, sequence := order.request.localOrderId, order.request.timestampNs, order.request.sequence;
    var (created, ok) := LC.Create(s, LifecycleRequest(order));
    EventTouches(s, LC.CreateEvent(LifecycleRequest(order)));
    if ok {
      assert created.records[id].request == LifecycleRequest(order);
      var checked := LC.RiskCheckedEvent(id, RiskCheckKey(id), ts, Add64(sequence, 1));
      EventTouches(created, checked);
      EventTouches(LC.ApplyEvent(created, checked).0, LC.SubmittedEvent(id, SubmitKey(id), ts, Add64(sequence, 2)));
      hide LC.Create, LC.Transition;
    }
  }

  lemma DispatchTouches(g: Gateway, order: NormalizedOrder, allowed: bool, h: HashOrder)
    ensures var id, s := order.request.localOrderId, g.pipeline.store;
            var s' := DispatchOrder(g, order, allowed, h).0.pipeline.store;
            && Touches(s, s', id)
            && (!allowed || id in s.records ==> s' == s)
            && (id in s'.records && id !in s.records ==> s'.records[id].request == LifecycleRequest(order))
  {
    hide OpenOrder, Deliver, LC.ApplyAcknowledgement, LC.ApplyExecution, FillCosts, FilledUnits, Digits, AfterSubmit;
    OpenOrderTouches(g.pipeline.store, order);
    var (store, refused) := OpenOrder(g.pipeline.store, order);
    if allowed && g.adapter.connected && refused == None {
      var answer := AnswerTo(g.adapter, order, g.adapter.submitCount + 1);
      AnswerIsAddressed(g.adapter, order, g.adapter.submitCount + 1);
      DispatchDelivers(g, order, h);
      EventTouches(store, LC.AckEvent(answer.ack));
      if answer.execution.Some? {
        EventTouches(LC.ApplyAcknowledgement(store, answer.ack).0, LC.FillEvent(answer.execution.value));
      }
    }
  }

  lemma AnswerIsAddressed(a: Adapter, order: NormalizedOrder, n: nat)
    ensures var answer := AnswerTo(a, order, n);
            && answer.ack.localOrderId == order.request.localOrderId
            && (answer.execution.Some? ==> answer.execution.value.localOrderId == order.request.localOrderId)
  {
    hide FillCosts, FilledUnits, Digits;
  }

  lemma CancelTouches(g: Gateway, request: CancelRequest)
    ensures var id, s, s' := request.localOrderId, g.pipeline.store, RequestCancel(g, request).0.pipeline.store;
            Touches(s, s', id) && (id !in s.records ==> id !in s'.records)
  {
    hide LC.RequestCancel, LC.ApplyCancelResult;
    EventTouches(g.pipeline.store, LC.CancelEvent(request));
    EventTouches(LC.RequestCancel(g.pipeline.store, request).0, LC.CancelResultEvent(CancelAnswer(g.adapter, request)));
  }

  /** `op` is an allowed dispatch of this order, with this request. */
  ghost predicate Dispatches(op: GatewayOp, id: u64, request: OrderRequest) {
    op.Dispatch? && op.allowed && op.order.request.localOrderId == id && LifecycleRequest(op.order) == request
  }

  /** One operation changes a known order only by canceling it, and adds one only by an allowed dispatch of it. */
  lemma StepTouches(g: Gateway, op: GatewayOp, id: u64)
    ensures var s, s' := g.pipeline.store, Step(g, op).pipeline.store;
            && (id in s.records ==>
                  && id in s'.records && s'.records[id].request == s.records[id].request
                  && (s'.records[id] == s.records[id] || (op.Cancel? && op.request.localOrderId == id)))
            && (id in s'.records && id !in s.records ==> Dispatches(op, id, s'.records[id].request))
  {
    hide DispatchOrder, RequestCancel;
    match op
    case Dispatch(order, allowed, h) => DispatchTouches(g, order, allowed, h);
    case Cancel(request) => CancelTouches(g, request);
    case _ =>
  }

  /**
   Over every run of dispatches, cancels, connections and faults, whatever their keys and sequences:
   an order is in the store only if an allowed dispatch of it put it there, and it is recorded as
   that dispatch requested. An order denied by risk at every dispatch never enters.
   */
  lemma {:induction false} OnlyAllowedDispatchesEnter(g: Gateway, ops: seq<GatewayOp>, id: u64)
    requires id !in g.pipeline.store.records && id in Run(g, ops).pipeline.store.records
    ensures exists i :: 0 <= i < |ops| && Dispatches(ops[i], id, Run(g, ops).pipeline.store.records[id].request)
  {
    hide Step;
    if ops != [] {
      var front := ops[..|ops| - 1];
      StepTouches(Run(g, front), ops[|ops| - 1], id);
      if id in Run(g, front).pipeline.store.records {
        OnlyAllowedDispatchesEnter(g, front, id);
        var i :| 0 <= i < |front| && Dispatches(front[i], id, Run(g, front).pipeline.store.records[id].request);
        assert Dispatches(ops[i], id, Run(g, ops).pipeline.store.records[id].request);
      }
    }
  }

  /** Over every run, an order that risk denies each time it is dispatched never enters the store. */
  lemma DeniedNeverEnters(g: Gateway, ops: seq<GatewayOp>, id: u64)
    requires id !in g.pipeline.store.records
    requires forall op :: op in ops && op.Dispatch? && op.order.request.localOrderId == id ==> !op.allowed
    ensures id !in Run(g, ops).pipeline.store.records
  {
    hide Run;
    if id in Run(g, ops).pipeline.store.records {
      OnlyAllowedDispatchesEnter(g, ops, id);
    }
  }

  /** An order once recorded stays, as it was requested, and without a cancel of it nothing about it changes. */
  lemma {:induction false} OrdersChangeOnlyByCancel(g: Gateway, ops: seq<GatewayOp>, id: u64)
    requires id in g.pipeline.store.records
    ensures var s, s' := g.pipeline.store, Run(g, ops).pipeline.store;
            && id in s'.records && s'.records[id].request == s.records[id].request
            && (s'.records[id] == s.records[id]
                || exists i :: 0 <= i < |ops| && ops[i].Cancel? && ops[i].request.localOrderId == id)
  {
    hide Step;
    if ops != [] {
      var front := ops[..|ops| - 1];
      OrdersChangeOnlyByCancel(g, front, id);
      StepTouches(Run(g, front), ops[|ops| - 1], id);
      if i :| 0 <= i < |front| && front[i].Cancel? && front[i].request.localOrderId == id {
        assert ops[i].Cancel? && ops[i].request.localOrderId == id;
      }
    }
  }
}
