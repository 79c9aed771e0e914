/**
 The order lifecycle as a function of the store: which events are admitted, duplicate, stale or
 illegal, and what an admitted event does to its order.
 */
module OrderLifecycle {
  import opened Wrappers
  import opened MachineWords
  import opened BrokerContracts

  datatype ApplyResult = Applied | Duplicate | UnknownOrder | InvalidEvent | InvalidTransition

  datatype AuditEntry = AuditEntry(
    state: OrderLifecycleState,
    reconciledState: Option<OrderLifecycleState>,
    eventKey: EventKey,
    failure: FailureCategory,
    reason: string,
    timestampNs: u64,
    sequence: u64)

  datatype Record = Record(
    request: OrderRequest,
    state: OrderLifecycleState,
    preCancelState: OrderLifecycleState,
    externalOrderId: string,
    filledQuantity: Decimal64,
    remainingQuantity: Decimal64,
    failure: FailureCategory,
    reason: string,
    lastTimestampNs: u64,
    lastSequence: u64,
    reconciledState: Option<OrderLifecycleState>,
    auditHistory: seq<AuditEntry>)

  datatype Store = Store(records: map<u64, Record>, appliedKeys: set<EventKey>)

  const EMPTY_STORE := Store(map[], {})

  // ---------------------------------------------------------------------------
  // Guards
  // ---------------------------------------------------------------------------

  /** An event is stale by its sequence number, or by its timestamp when either side has no sequence. */
  predicate IsOlder(lastTimestampNs: u64, lastSequence: u64, timestampNs: u64, sequence: u64) {
    if sequence > 0 && lastSequence > 0 then sequence <= lastSequence
    else timestampNs > 0 && lastTimestampNs > 0 && timestampNs < lastTimestampNs
  }

  predicate EventIsOlder(record: Record, timestampNs: u64, sequence: u64) {
    IsOlder(record.lastTimestampNs, record.lastSequence, timestampNs, sequence)
  }

  predicate IsTerminal(state: OrderLifecycleState) {
    state == Filled || state == Canceled || state == Expired || state == Rejected || state == Reconciled
  }

  predicate CanTransition(from: OrderLifecycleState, to: OrderLifecycleState) {
    !IsTerminal(from) &&
    match to
    case RiskChecked => from == Created
    case Submitted => from == RiskChecked
    case Accepted | Rejected => from == Submitted
    case PartiallyFilled | Filled =>
      from == Submitted || from == Accepted || from == PartiallyFilled
      || from == CancelRequested || from == Timeout || from == Unknown
    case CancelRequested => from == Accepted || from == PartiallyFilled
    case Canceled | Expired =>
      from == Accepted || from == PartiallyFilled || from == CancelRequested || from == Unknown
    case Timeout | Unknown =>
      from == Submitted || from == Accepted || from == PartiallyFilled
      || from == CancelRequested || from == Timeout
    case Reconciled =>
      from == Unknown || from == Timeout || from == CancelRequested || from == PartiallyFilled
    case Created => false
  }

  predicate ValidQuantities(record: Record, cumulativeFilled: Decimal64, remaining: Decimal64) {
    && cumulativeFilled.scale == record.request.quantity.scale
    && remaining.scale == record.request.quantity.scale
    && cumulativeFilled.units >= 0 && remaining.units >= 0
    && cumulativeFilled.units <= MAX_I64 - remaining.units
    && cumulativeFilled.units + remaining.units == record.request.quantity.units
  }

  /** The checks every event on an existing order passes first. */
  function Admission(s: Store, id: u64, key: EventKey): ApplyResult {
    if id !in s.records then UnknownOrder
    else if key.IsEmpty() then InvalidEvent
    else if key in s.appliedKeys then Duplicate
    else Applied
  }

  // ---------------------------------------------------------------------------
  // Events
  // ---------------------------------------------------------------------------

  /** Commits an order's new state: its clock advances, its audit grows and the event key is spent. */
  function Commit(s: Store, id: u64, updated: Record, key: EventKey, timestampNs: u64, sequence: u64,
                  reconciled: Option<OrderLifecycleState> := None): Store
  {
    var entry := AuditEntry(updated.state, reconciled, key, updated.failure, updated.reason, timestampNs, sequence);
    var record := updated.(lastTimestampNs := timestampNs, lastSequence := sequence,
                           auditHistory := updated.auditHistory + [entry]);
    Store(s.records[id := record], s.appliedKeys + {key})
  }

  function NewRecord(request: OrderRequest): Record {
    Record(request, Created, Created, "", Decimal64(0, request.quantity.scale), request.quantity,
           NoFailure, "", request.timestampNs, request.sequence, None, [])
  }

  function Create(s: Store, request: OrderRequest): (Store, bool) {
    if request.localOrderId == 0 || request.canonicalSymbol == "" || !request.quantity.IsPositive()
       || request.idempotencyKey.IsEmpty() || request.quantity.scale > MAX_SCALE then (s, false)
    else if request.localOrderId in s.records || request.idempotencyKey in s.appliedKeys then (s, false)
    else (Commit(s, request.localOrderId, NewRecord(request), request.idempotencyKey,
                 request.timestampNs, request.sequence), true)
  }

  function Transition(s: Store, id: u64, next: OrderLifecycleState, key: EventKey, timestampNs: u64, sequence: u64)
    : (Store, ApplyResult)
  {
    var admission := Admission(s, id, key);
    if admission != Applied then (s, admission)
    else if EventIsOlder(s.records[id], timestampNs, sequence) then (s, InvalidEvent)
    else if !CanTransition(s.records[id].state, next) then (s, InvalidTransition)
    else (Commit(s, id, s.records[id].(state := next), key, timestampNs, sequence), Applied)
  }

  function MarkUnknown(s: Store, id: u64, key: EventKey, failure: FailureCategory, reason: string,
                       timestampNs: u64, sequence: u64): (Store, ApplyResult)
  {
    var (s', result) := Transition(s, id, Unknown, key, timestampNs, sequence);
    if result != Applied then (s', result)
    else (Commit(s, id, s.records[id].(state := Unknown, failure := failure, reason := reason),
                 key, timestampNs, sequence), Applied)
  }

  function ApplyAcknowledgement(s: Store, ack: OrderAcknowledgement): (Store, ApplyResult) {
    var admission := Admission(s, ack.localOrderId, ack.eventKey);
    if admission != Applied then (s, admission) else
    var record := s.records[ack.localOrderId];
    if EventIsOlder(record, ack.timestampNs, ack.sequence) then (s, InvalidEvent)
    else if ack.accepted && ack.externalOrderId == "" then (s, InvalidEvent)
    else
      var next := if ack.accepted then Accepted else Rejected;
      if !CanTransition(record.state, next) then (s, InvalidTransition)
      else (Commit(s, ack.localOrderId,
                   record.(state := next, externalOrderId := ack.externalOrderId,
                           failure := ack.failure, reason := ack.reason),
                   ack.eventKey, ack.timestampNs, ack.sequence), Applied)
  }

  function ApplyExecution(s: Store, execution: ExecutionEvent): (Store, ApplyResult) {
    var admission := Admission(s, execution.localOrderId, execution.eventKey);
    if admission != Applied then (s, admission) else
    var record := s.records[execution.localOrderId];
    if EventIsOlder(record, execution.timestampNs, execution.sequence)
       || !ValidQuantities(record, execution.cumulativeFilledQuantity, execution.remainingQuantity)
       || execution.cumulativeFilledQuantity.units < record.filledQuantity.units then (s, InvalidEvent)
    else
      var next := if execution.remainingQuantity.IsZero() then Filled else PartiallyFilled;
      if !CanTransition(record.state, next) then (s, InvalidTransition)
      else (Commit(s, execution.localOrderId,
                   record.(state := next, externalOrderId := execution.externalOrderId,
                           filledQuantity := execution.cumulativeFilledQuantity,
                           remainingQuantity := execution.remainingQuantity),
                   execution.eventKey, execution.timestampNs, execution.sequence), Applied)
  }

  function RequestCancel(s: Store, request: CancelRequest): (Store, ApplyResult) {
    var admission := Admission(s, request.localOrderId, request.idempotencyKey);
    if admission != Applied then (s, admission) else
    var record := s.records[request.localOrderId];
    if EventIsOlder(record, request.timestampNs, request.sequence)
       || !CanTransition(record.state, CancelRequested) then (s, InvalidTransition)
    else (Commit(s, request.localOrderId,
                 record.(preCancelState := record.state, state := CancelRequested),
                 request.idempotencyKey, request.timestampNs, request.sequence), Applied)
  }

  function AfterCancel(record: Record, disposition: CancelDisposition): OrderLifecycleState {
    match disposition
    case CancelAccepted | AlreadyCanceled => Canceled
    case AlreadyFilled => Filled
    case CancelRejected => record.preCancelState
    case CancelUnknown => Unknown
  }

  function ApplyCancelResult(s: Store, result: CancelResult): (Store, ApplyResult) {
    var admission := Admission(s, result.localOrderId, result.eventKey);
    if admission != Applied then (s, admission) else
    var record := s.records[result.localOrderId];
    if EventIsOlder(record, result.timestampNs, result.sequence) || record.state != CancelRequested
    then (s, InvalidTransition)
    else if result.disposition == AlreadyFilled && !record.remainingQuantity.IsZero() then (s, InvalidEvent)
    else (Commit(s, result.localOrderId,
                 record.(state := AfterCancel(record, result.disposition),
                         failure := result.failure, reason := result.reason),
                 result.eventKey, result.timestampNs, result.sequence), Applied)
  }

  predicate IsResolution(state: OrderLifecycleState) {
    state == Filled || state == PartiallyFilled || state == Canceled || state == Expired || state == Rejected
  }

  function ApplyReconciliation(s: Store, id: u64, resolved: OrderLifecycleState, cumulativeFilled: Decimal64,
                               remaining: Decimal64, key: EventKey, timestampNs: u64, sequence: u64)
    : (Store, ApplyResult)
  {
    var admission := Admission(s, id, key);
    if admission != Applied then (s, admission) else
    var record := s.records[id];
    if EventIsOlder(record, timestampNs, sequence)
       || !ValidQuantities(record, cumulativeFilled, remaining) then (s, InvalidEvent)
    else if !CanTransition(record.state, Reconciled) then (s, InvalidTransition)
    else if !IsResolution(resolved) then (s, InvalidTransition)
    else (Commit(s, id,
                 record.(state := Reconciled, reconciledState := Some(resolved),
                         filledQuantity := cumulativeFilled, remainingQuantity := remaining),
                 key, timestampNs, sequence, Some(resolved)), Applied)
  }

  // ---------------------------------------------------------------------------
  // Runs
  // ---------------------------------------------------------------------------

  datatype Event =
    | CreateEvent(request: OrderRequest)
    | RiskCheckedEvent(id: u64, key: EventKey, timestampNs: u64, sequence: u64)
    | SubmittedEvent(id: u64, key: EventKey, timestampNs: u64, sequence: u64)
    | TimeoutEvent(id: u64, key: EventKey, timestampNs: u64, sequence: u64)
    | UnknownEvent(id: u64, key: EventKey, failure: FailureCategory, reason: string, timestampNs: u64, sequence: u64)
    | AckEvent(ack: OrderAcknowledgement)
    | FillEvent(execution: ExecutionEvent)
    | CancelEvent(request_: CancelRequest)
    | CancelResultEvent(result: CancelResult)
    | ReconcileEvent(id: u64, resolved: OrderLifecycleState, cumulativeFilled: Decimal64, remaining: Decimal64,
                     key: EventKey, timestampNs: u64, sequence: u64)
  {
    function Order(): u64 {
      match this
      case CreateEvent(request) => request.localOrderId
      case RiskCheckedEvent(id, _, _, _) => id
      case SubmittedEvent(id, _, _, _) => id
      case TimeoutEvent(id, _, _, _) => id
      case UnknownEvent(id, _, _, _, _, _) => id
      case AckEvent(ack) => ack.localOrderId
      case FillEvent(execution) => execution.localOrderId
      case CancelEvent(request) => request.localOrderId
      case CancelResultEvent(result) => result.localOrderId
      case ReconcileEvent(id, _, _, _, _, _, _) => id
    }

    function Key(): EventKey {
      match this
      case CreateEvent(request) => request.idempotencyKey
      case RiskCheckedEvent(_, key, _, _) => key
      case SubmittedEvent(_, key, _, _) => key
      case TimeoutEvent(_, key, _, _) => key
      case UnknownEvent(_, key, _, _, _, _) => key
      case AckEvent(ack) => ack.eventKey
      case FillEvent(execution) => execution.eventKey
      case CancelEvent(request) => request.idempotencyKey
      case CancelResultEvent(result) => result.eventKey
      case ReconcileEvent(_, _, _, _, key, _, _) => key
    }

    function Sequence(): u64 {
      match this
      case CreateEvent(request) => request.sequence
      case RiskCheckedEvent(_, _, _, sequence) => sequence
      case SubmittedEvent(_, _, _, sequence) => sequence
      case TimeoutEvent(_, _, _, sequence) => sequence
      case UnknownEvent(_, _, _, _, _, sequence) => sequence
      case AckEvent(ack) => ack.sequence
      case FillEvent(execution) => execution.sequence
      case CancelEvent(request) => request.sequence
      case CancelResultEvent(result) => result.sequence
      case ReconcileEvent(_, _, _, _, _, _, sequence) => sequence
    }
  }

  function ApplyEvent(s: Store, event: Event): (Store, ApplyResult) {
    match event
    case CreateEvent(request) =>
      var (s', created) := Create(s, request);
      (s', if created then Applied else InvalidEvent)
    case RiskCheckedEvent(id, key, ts, seq_) => Transition(s, id, RiskChecked, key, ts, seq_)
    case SubmittedEvent(id, key, ts, seq_) => Transition(s, id, Submitted, key, ts, seq_)
    case TimeoutEvent(id, key, ts, seq_) => Transition(s, id, Timeout, key, ts, seq_)
    case UnknownEvent(id, key, failure, reason, ts, seq_) => MarkUnknown(s, id, key, failure, reason, ts, seq_)
    case AckEvent(ack) => ApplyAcknowledgement(s, ack)
    case FillEvent(execution) => ApplyExecution(s, execution)
    case CancelEvent(request) => RequestCancel(s, request)
    case CancelResultEvent(result) => ApplyCancelResult(s, result)
    case ReconcileEvent(id, resolved, filled, remaining, key, ts, seq_) =>
      ApplyReconciliation(s, id, resolved, filled, remaining, key, ts, seq_)
  }

  function Run(s: Store, events: seq<Event>): Store {
    if events == [] then s else ApplyEvent(Run(s, events[..|events| - 1]), events[|events| - 1]).0
  }
}
