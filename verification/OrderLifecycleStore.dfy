/** The lifecycle store as the object that applies events in place. */
module OrderLifecycleStores {
  import opened Wrappers
  import opened MachineWords
  import opened BrokerContracts
  import L = OrderLifecycle

  class OrderLifecycleStore {
    var m_records: map<u64, L.Record>
    var m_appliedEventKeys: set<EventKey>

    ghost function State(): L.Store
      reads this
    {
      L.Store(m_records, m_appliedEventKeys)
    }

    constructor ()
      ensures State() == L.EMPTY_STORE
    {
      m_records := map[];
      m_appliedEventKeys := {};
    }

    method CreateOrder(request: OrderRequest) returns (created: bool)
      modifies this
      ensures (State(), created) == L.Create(old(State()), request)
    {
      if request.localOrderId == 0 || request.canonicalSymbol == "" || !request.quantity.IsPositive()
         || request.idempotencyKey.IsEmpty() || request.quantity.scale > MAX_SCALE {
        return false;
      }
      if request.localOrderId in m_records || request.idempotencyKey in m_appliedEventKeys {
        return false;
      }
      var record := L.NewRecord(request);
      record := AppendAudit(record, request.idempotencyKey, request.timestampNs, request.sequence, None);
      m_records := m_records[request.localOrderId := record];
      m_appliedEventKeys := m_appliedEventKeys + {request.idempotencyKey};
      return true;
    }

    method MarkRiskChecked(id: u64, eventKey: EventKey, timestampNs: u64, sequence: u64) returns (result: L.ApplyResult)
      modifies this
      ensures (State(), result) == L.Transition(old(State()), id, RiskChecked, eventKey, timestampNs, sequence)
    {
      result := Transition(id, RiskChecked, eventKey, timestampNs, sequence);
    }

    method MarkSubmitted(id: u64, eventKey: EventKey, timestampNs: u64, sequence: u64) returns (result: L.ApplyResult)
      modifies this
      ensures (State(), result) == L.Transition(old(State()), id, Submitted, eventKey, timestampNs, sequence)
    {
      result := Transition(id, Submitted, eventKey, timestampNs, sequence);
    }

    method MarkTimeout(id: u64, eventKey: EventKey, timestampNs: u64, sequence: u64) returns (result: L.ApplyResult)
      modifies this
      ensures (State(), result) == L.Transition(old(State()), id, Timeout, eventKey, timestampNs, sequence)
    {
      result := Transition(id, Timeout, eventKey, timestampNs, sequence);
    }

    method MarkUnknown(id: u64, eventKey: EventKey, failure: FailureCategory, reason: string,
                       timestampNs: u64, sequence: u64) returns (result: L.ApplyResult)
      modifies this
      ensures (State(), result) == L.MarkUnknown(old(State()), id, eventKey, failure, reason, timestampNs, sequence)
    {
      result := Transition(id, Unknown, eventKey, timestampNs, sequence);
      if result == L.Applied {
        var record := m_records[id];
        var last := |record.auditHistory| - 1;
        var audit := record.auditHistory[last].(failure := failure, reason := reason);
        record := record.(failure := failure, reason := reason, auditHistory := record.auditHistory[last := audit]);
        ghost var before := old(m_records)[id];
        assert record.auditHistory == before.auditHistory + [audit];
        assert audit == L.AuditEntry(Unknown, None, eventKey, failure, reason, timestampNs, sequence);
        m_records := m_records[id := record];
        assert m_records == old(m_records)[id := record];
      }
    }

    method ApplyAcknowledgement(ack: OrderAcknowledgement) returns (result: L.ApplyResult)
      modifies this
      ensures (State(), result) == L.ApplyAcknowledgement(old(State()), ack)
    {
      if ack.localOrderId !in m_records {
        return L.UnknownOrder;
      }
      var record := m_records[ack.localOrderId];
      if ack.eventKey.IsEmpty() {
        return L.InvalidEvent;
      }
      if ack.eventKey in m_appliedEventKeys {
        return L.Duplicate;
      }
      if L.EventIsOlder(record, ack.timestampNs, ack.sequence) {
        return L.InvalidEvent;
      }
      if ack.accepted && ack.externalOrderId == "" {
        return L.InvalidEvent;
      }
      var next := if ack.accepted then Accepted else Rejected;
      if !L.CanTransition(record.state, next) {
        return L.InvalidTransition;
      }
      record := record.(state := next, externalOrderId := ack.externalOrderId,
                        failure := ack.failure, reason := ack.reason);
      StoreEvent(ack.localOrderId, record, ack.eventKey, ack.timestampNs, ack.sequence, None);
      return L.Applied;
    }

    method ApplyExecution(execution: ExecutionEvent) returns (result: L.ApplyResult)
      modifies this
      ensures (State(), result) == L.ApplyExecution(old(State()), execution)
    {
      if execution.localOrderId !in m_records {
        return L.UnknownOrder;
      }
      var record := m_records[execution.localOrderId];
      if execution.eventKey.IsEmpty() {
        return L.InvalidEvent;
      }
      if execution.eventKey in m_appliedEventKeys {
        return L.Duplicate;
      }
      if L.EventIsOlder(record, execution.timestampNs, execution.sequence)
         || !L.ValidQuantities(record, execution.cumulativeFilledQuantity, execution.remainingQuantity)
         || execution.cumulativeFilledQuantity.units < record.filledQuantity.units {
        return L.InvalidEvent;
      }
      var next := if execution.remainingQuantity.IsZero() then Filled else PartiallyFilled;
      if !L.CanTransition(record.state, next) {
        return L.InvalidTransition;
      }
      record := record.(state := next, externalOrderId := execution.externalOrderId,
                        filledQuantity := execution.cumulativeFilledQuantity,
                        remainingQuantity := execution.remainingQuantity);
      StoreEvent(execution.localOrderId, record, execution.eventKey, execution.timestampNs, execution.sequence, None);
      return L.Applied;
    }

    method RequestCancel(request: CancelRequest) returns (result: L.ApplyResult)
      modifies this
      ensures (State(), result) == L.RequestCancel(old(State()), request)
    {
      if request.localOrderId !in m_records {
        return L.UnknownOrder;
      }
      var record := m_records[request.localOrderId];
      if request.idempotencyKey.IsEmpty() {
        return L.InvalidEvent;
      }
      if request.idempotencyKey in m_appliedEventKeys {
        return L.Duplicate;
      }
      if L.EventIsOlder(record, request.timestampNs, request.sequence)
         || !L.CanTransition(record.state, CancelRequested) {
        return L.InvalidTransition;
      }
      record := record.(preCancelState := record.state, state := CancelRequested);
      StoreEvent(request.localOrderId, record, request.idempotencyKey, request.timestampNs, request.sequence, None);
      return L.Applied;
    }

    method ApplyCancelResult(cancel: CancelResult) returns (result: L.ApplyResult)
      modifies this
      ensures (State(), result) == L.ApplyCancelResult(old(State()), cancel)
    {
      if cancel.localOrderId !in m_records {
        return L.UnknownOrder;
      }
      var record := m_records[cancel.localOrderId];
      if cancel.eventKey.IsEmpty() {
        return L.InvalidEvent;
      }
      if cancel.eventKey in m_appliedEventKeys {
        return L.Duplicate;
      }
      if L.EventIsOlder(record, cancel.timestampNs, cancel.sequence) || record.state != CancelRequested {
        return L.InvalidTransition;
      }
      var next := Unknown;
      match cancel.disposition {
        case CancelAccepted | AlreadyCanceled =>
          next := Canceled;
        case AlreadyFilled =>
          if !record.remainingQuantity.IsZero() {
            return L.InvalidEvent;
          }
          next := Filled;
        case CancelRejected =>
          next := record.preCancelState;
        case CancelUnknown =>
          next := Unknown;
      }
      record := record.(state := next, failure := cancel.failure, reason := cancel.reason);
      StoreEvent(cancel.localOrderId, record, cancel.eventKey, cancel.timestampNs, cancel.sequence, None);
      return L.Applied;
    }

    method ApplyReconciliation(id: u64, resolvedState: OrderLifecycleState, cumulativeFilled: Decimal64,
                               remaining: Decimal64, eventKey: EventKey, timestampNs: u64, sequence: u64)
      returns (result: L.ApplyResult)
      modifies this
      ensures (State(), result) ==
                L.ApplyReconciliation(old(State()), id, resolvedState, cumulativeFilled, remaining,
                                      eventKey, timestampNs, sequence)
    {
      if id !in m_records {
        return L.UnknownOrder;
      }
      var record := m_records[id];
      if eventKey.IsEmpty() {
        return L.InvalidEvent;
      }
      if eventKey in m_appliedEventKeys {
        return L.Duplicate;
      }
      if L.EventIsOlder(record, timestampNs, sequence)
         || !L.ValidQuantities(record, cumulativeFilled, remaining) {
        return L.InvalidEvent;
      }
      if !L.CanTransition(record.state, Reconciled) {
        return L.InvalidTransition;
      }
      if !L.IsResolution(resolvedState) {
        return L.InvalidTransition;
      }
      record := record.(state := Reconciled, reconciledState := Some(resolvedState),
                        filledQuantity := cumulativeFilled, remainingQuantity := remaining);
      StoreEvent(id, record, eventKey, timestampNs, sequence, Some(resolvedState));
      return L.Applied;
    }

    method Transition(id: u64, next: OrderLifecycleState, eventKey: EventKey, timestampNs: u64, sequence: u64)
      returns (result: L.ApplyResult)
      modifies this
      ensures (State(), result) == L.Transition(old(State()), id, next, eventKey, timestampNs, sequence)
    {
      if id !in m_records {
        return L.UnknownOrder;
      }
      if eventKey.IsEmpty() {
        return L.InvalidEvent;
      }
      if eventKey in m_appliedEventKeys {
        return L.Duplicate;
      }
      if L.EventIsOlder(m_records[id], timestampNs, sequence) {
        return L.InvalidEvent;
      }
      if !L.CanTransition(m_records[id].state, next) {
        return L.InvalidTransition;
      }
      StoreEvent(id, m_records[id].(state := next), eventKey, timestampNs, sequence, None);
      return L.Applied;
    }

    /** Spends the event key, stamps the order with the event's clock and audits it. */
    method StoreEvent(id: u64, updated: L.Record, eventKey: EventKey, timestampNs: u64, sequence: u64,
                      reconciled: Option<OrderLifecycleState>)
      modifies this
      ensures State() == L.Commit(old(State()), id, updated, eventKey, timestampNs, sequence, reconciled)
    {
      m_appliedEventKeys := m_appliedEventKeys + {eventKey};
      var record := updated.(lastTimestampNs := timestampNs, lastSequence := sequence);
      record := AppendAudit(record, eventKey, timestampNs, sequence, reconciled);
      m_records := m_records[id := record];
    }

    static function AppendAudit(record: L.Record, eventKey: EventKey, timestampNs: u64, sequence: u64,
                                reconciled: Option<OrderLifecycleState>): L.Record
    {
      record.(auditHistory := record.auditHistory
                            + [L.AuditEntry(record.state, reconciled, eventKey, record.failure, record.reason,
                                            timestampNs, sequence)])
    }

    function Find(id: u64): Option<L.Record>
      reads this
    {
      if id in m_records then Some(m_records[id]) else None
    }
  }
}
