/**
 Exactly when each lifecycle event is applied, how it is refused otherwise, and what an applied event
 makes of its order, written out in states, quantities, keys, sequence numbers and timestamps.
 */
module LifecycleTable {
  import opened Wrappers
  import opened MachineWords
  import opened BrokerContracts
  import opened OrderLifecycle
  import opened LifecycleInvariant

  // ---------------------------------------------------------------------------
  // When an event is applied
  // ---------------------------------------------------------------------------

  /** The order is known and the key is given and was never spent. */
  predicate Admitted(s: Store, id: u64, key: EventKey) {
    id in s.records && key != Named("") && key !in s.appliedKeys
  }

  /** With sequence numbers on both sides the event must be newer; without, its timestamp must not be earlier. */
  predicate OnTime(r: Record, timestampNs: u64, sequence: u64) {
    if sequence != 0 && r.lastSequence != 0 then r.lastSequence < sequence
    else timestampNs == 0 || r.lastTimestampNs == 0 || r.lastTimestampNs <= timestampNs
  }

  /** Filled and remaining quantity share out what was requested, at its scale. */
  predicate SharesRequest(r: Record, filled: Decimal64, remaining: Decimal64) {
    && filled.scale == remaining.scale == r.request.quantity.scale
    && filled.units >= 0 && remaining.units >= 0
    && filled.units + remaining.units == r.request.quantity.units
  }

  /** The event is applied: known order, fresh key, in time, with fitting contents, in a state that allows it. */
  predicate MayApply(s: Store, event: Event) {
    match event
    case CreateEvent(q) =>
      && q.localOrderId != 0 && q.canonicalSymbol != "" && q.quantity.units > 0 && q.quantity.scale <= 12
      && q.idempotencyKey != Named("") && q.idempotencyKey !in s.appliedKeys && q.localOrderId !in s.records
    case RiskCheckedEvent(id, key, ts, n) =>
      Admitted(s, id, key) && OnTime(s.records[id], ts, n) && s.records[id].state == Created
    case SubmittedEvent(id, key, ts, n) =>
      Admitted(s, id, key) && OnTime(s.records[id], ts, n) && s.records[id].state == RiskChecked
    case TimeoutEvent(id, key, ts, n) =>
      && Admitted(s, id, key) && OnTime(s.records[id], ts, n)
      && s.records[id].state in {Submitted, Accepted, PartiallyFilled, CancelRequested, Timeout}
    case UnknownEvent(id, key, _, _, ts, n) =>
      && Admitted(s, id, key) && OnTime(s.records[id], ts, n)
      && s.records[id].state in {Submitted, Accepted, PartiallyFilled, CancelRequested, Timeout}
    case AckEvent(a) =>
      && Admitted(s, a.localOrderId, a.eventKey) && OnTime(s.records[a.localOrderId], a.timestampNs, a.sequence)
      && (a.accepted ==> a.externalOrderId != "") && s.records[a.localOrderId].state == Submitted
    case FillEvent(x) =>
      && Admitted(s, x.localOrderId, x.eventKey) && OnTime(s.records[x.localOrderId], x.timestampNs, x.sequence)
      && SharesRequest(s.records[x.localOrderId], x.cumulativeFilledQuantity, x.remainingQuantity)
      && s.records[x.localOrderId].filledQuantity.units <= x.cumulativeFilledQuantity.units
      && s.records[x.localOrderId].state in {Submitted, Accepted, PartiallyFilled, CancelRequested, Timeout, Unknown}
    case CancelEvent(c) =>
      && Admitted(s, c.localOrderId, c.idempotencyKey)
      && OnTime(s.records[c.localOrderId], c.timestampNs, c.sequence)
      && s.records[c.localOrderId].state in {Accepted, PartiallyFilled}
    case CancelResultEvent(c) =>
      && Admitted(s, c.localOrderId, c.eventKey) && OnTime(s.records[c.localOrderId], c.timestampNs, c.sequence)
      && s.records[c.localOrderId].state == CancelRequested
      && (c.disposition == AlreadyFilled ==> s.records[c.localOrderId].remainingQuantity.units == 0)
    case ReconcileEvent(id, resolved, filled, remaining, key, ts, n) =>
      && Admitted(s, id, key) && OnTime(s.records[id], ts, n) && SharesRequest(s.records[id], filled, remaining)
      && s.records[id].state in {Unknown, Timeout, CancelRequested, PartiallyFilled}
      && resolved in {Filled, PartiallyFilled, Canceled, Expired, Rejected}
  }

  /** The states from which each state can be entered. */
  function Before(to: OrderLifecycleState): set<OrderLifecycleState> {
    match to
    case Created => {}
    case RiskChecked => {Created}
    case Submitted => {RiskChecked}
    case Accepted => {Submitted}
    case Rejected => {Submitted}
    case PartiallyFilled => {Submitted, Accepted, PartiallyFilled, CancelRequested, Timeout, Unknown}
    case Filled => {Submitted, Accepted, PartiallyFilled, CancelRequested, Timeout, Unknown}
    case CancelRequested => {Accepted, PartiallyFilled}
    case Canceled => {Accepted, PartiallyFilled, CancelRequested, Unknown}
    case Expired => {Accepted, PartiallyFilled, CancelRequested, Unknown}
    case Timeout => {Submitted, Accepted, PartiallyFilled, CancelRequested, Timeout}
    case Unknown => {Submitted, Accepted, PartiallyFilled, CancelRequested, Timeout}
    case Reconciled => {Unknown, Timeout, CancelRequested, PartiallyFilled}
  }

  /** An event is applied if and only if its line of the table holds. */
  lemma AppliedIff(s: Store, event: Event)
    ensures ApplyEvent(s, event).1 == Applied <==> MayApply(s, event)
  {
    ChecksAgree(s);
    StatesAgree();
    hide Commit, NewRecord, EventIsOlder, OnTime, ValidQuantities, SharesRequest, CanTransition;
  }

  /** The store's checks of an event say about every order what the table says. */
  lemma ChecksAgree(s: Store)
    ensures forall id, ts, n | id in s.records :: EventIsOlder(s.records[id], ts, n) <==> !OnTime(s.records[id], ts, n)
    ensures forall id, filled, remaining | id in s.records ::
              ValidQuantities(s.records[id], filled, remaining) <==> SharesRequest(s.records[id], filled, remaining)
  {
  }

  lemma StatesAgree()
    ensures forall from, to :: CanTransition(from, to) <==> from in Before(to)
  {
    forall from, to ensures CanTransition(from, to) <==> from in Before(to) {
      StatesBefore(from, to);
    }
    hide CanTransition, Before;
  }

  lemma StatesBefore(from: OrderLifecycleState, to: OrderLifecycleState)
    ensures CanTransition(from, to) <==> from in Before(to)
  {
  }

  // ---------------------------------------------------------------------------
  // How an event is refused
  // ---------------------------------------------------------------------------

  /** The contents of an event on an order do not fit the order, whatever its state. */
  predicate Unfit(r: Record, event: Event) {
    match event
    case CreateEvent(_) => true
    case RiskCheckedEvent(_, _, ts, n) => !OnTime(r, ts, n)
    case SubmittedEvent(_, _, ts, n) => !OnTime(r, ts, n)
    case TimeoutEvent(_, _, ts, n) => !OnTime(r, ts, n)
    case UnknownEvent(_, _, _, _, ts, n) => !OnTime(r, ts, n)
    case AckEvent(a) => !OnTime(r, a.timestampNs, a.sequence) || (a.accepted && a.externalOrderId == "")
    case FillEvent(x) =>
      || !OnTime(r, x.timestampNs, x.sequence)
      || !SharesRequest(r, x.cumulativeFilledQuantity, x.remainingQuantity)
      || x.cumulativeFilledQuantity.units < r.filledQuantity.units
    case CancelEvent(_) => false
    case CancelResultEvent(c) =>
      && OnTime(r, c.timestampNs, c.sequence) && r.state == CancelRequested
      && c.disposition == AlreadyFilled && r.remainingQuantity.units != 0
    case ReconcileEvent(_, _, filled, remaining, _, ts, n) => !OnTime(r, ts, n) || !SharesRequest(r, filled, remaining)
  }

  /** The order and the key an event names. */
  function Target(event: Event): (u64, EventKey) {
    match event
    case CreateEvent(q) => (q.localOrderId, q.idempotencyKey)
    case RiskCheckedEvent(id, key, _, _) => (id, key)
    case SubmittedEvent(id, key, _, _) => (id, key)
    case TimeoutEvent(id, key, _, _) => (id, key)
    case UnknownEvent(id, key, _, _, _, _) => (id, key)
    case AckEvent(a) => (a.localOrderId, a.eventKey)
    case FillEvent(x) => (x.localOrderId, x.eventKey)
    case CancelEvent(c) => (c.localOrderId, c.idempotencyKey)
    case CancelResultEvent(c) => (c.localOrderId, c.eventKey)
    case ReconcileEvent(id, _, _, _, key, _, _) => (id, key)
  }

  /**
   An event that is not applied changes nothing. It is refused as unknown when its order is, then as
   invalid without a key, then as a duplicate when the key is spent, then as invalid when its
   contents do not fit, and otherwise as an invalid transition.
   */
  lemma RefusedIff(s: Store, event: Event)
    requires !MayApply(s, event)
    ensures var (s', answer) := ApplyEvent(s, event);
            var (id, key) := Target(event);
            && s' == s
            && answer == (if event.CreateEvent? then InvalidEvent
                          else if id !in s.records then UnknownOrder
                          else if key == Named("") then InvalidEvent
                          else if key in s.appliedKeys then Duplicate
                          else if Unfit(s.records[id], event) then InvalidEvent
                          else InvalidTransition)
  {
    AppliedIff(s, event);
    EventIsCommit(s, event);
    ChecksAgree(s);
    hide MayApply, Commit, NewRecord, EventIsOlder, OnTime, ValidQuantities, SharesRequest, CanTransition, Updated;
  }

  // ---------------------------------------------------------------------------
  // What an applied event does
  // ---------------------------------------------------------------------------

  /** The order with its new state, clock and audit entry; the entry shows what the order then says. */
  ghost predicate Stamped(r: Record, r': Record, state: OrderLifecycleState, key: EventKey, timestampNs: u64,
                          sequence: u64, reconciled: Option<OrderLifecycleState>)
  {
    && r'.request == r.request && r'.state == state
    && r'.lastTimestampNs == timestampNs && r'.lastSequence == sequence
    && r'.auditHistory ==
         r.auditHistory + [AuditEntry(state, reconciled, key, r'.failure, r'.reason, timestampNs, sequence)]
  }

  predicate SameQuantities(r: Record, r': Record) {
    r'.filledQuantity == r.filledQuantity && r'.remainingQuantity == r.remainingQuantity
  }

  predicate SameFailure(r: Record, r': Record) {
    r'.failure == r.failure && r'.reason == r.reason
  }

  predicate SameHistory(r: Record, r': Record) {
    r'.preCancelState == r.preCancelState && r'.reconciledState == r.reconciledState
  }

  /** What the event makes of its order. */
  ghost predicate Becomes(r: Record, event: Event, r': Record) {
    match event
    case CreateEvent(q) =>
      && r'.request == q && r'.state == Created && r'.preCancelState == Created && r'.externalOrderId == ""
      && r'.filledQuantity == Decimal64(0, q.quantity.scale) && r'.remainingQuantity == q.quantity
      && r'.failure == NoFailure && r'.reason == "" && r'.reconciledState == None
      && r'.lastTimestampNs == q.timestampNs && r'.lastSequence == q.sequence
      && r'.auditHistory == [AuditEntry(Created, None, q.idempotencyKey, NoFailure, "", q.timestampNs, q.sequence)]
    case RiskCheckedEvent(_, key, ts, n) =>
      && Stamped(r, r', RiskChecked, key, ts, n, None)
      && SameQuantities(r, r') && SameFailure(r, r') && SameHistory(r, r') && r'.externalOrderId == r.externalOrderId
    case SubmittedEvent(_, key, ts, n) =>
      && Stamped(r, r', Submitted, key, ts, n, None)
      && SameQuantities(r, r') && SameFailure(r, r') && SameHistory(r, r') && r'.externalOrderId == r.externalOrderId
    case TimeoutEvent(_, key, ts, n) =>
      && Stamped(r, r', Timeout, key, ts, n, None)
      && SameQuantities(r, r') && SameFailure(r, r') && SameHistory(r, r') && r'.externalOrderId == r.externalOrderId
    case UnknownEvent(_, key, failure, reason, ts, n) =>
      && Stamped(r, r', Unknown, key, ts, n, None) && r'.failure == failure && r'.reason == reason
      && SameQuantities(r, r') && SameHistory(r, r') && r'.externalOrderId == r.externalOrderId
    case AckEvent(a) =>
      && Stamped(r, r', if a.accepted then Accepted else Rejected, a.eventKey, a.timestampNs, a.sequence, None)
      && r'.externalOrderId == a.externalOrderId && r'.failure == a.failure && r'.reason == a.reason
      && SameQuantities(r, r') && SameHistory(r, r')
    case FillEvent(x) =>
      && Stamped(r, r', if x.remainingQuantity.units == 0 then Filled else PartiallyFilled, x.eventKey, x.timestampNs,
                 x.sequence, None)
      && r'.filledQuantity == x.cumulativeFilledQuantity && r'.remainingQuantity == x.remainingQuantity
      && r'.externalOrderId == x.externalOrderId && SameFailure(r, r') && SameHistory(r, r')
    case CancelEvent(c) =>
      && Stamped(r, r', CancelRequested, c.idempotencyKey, c.timestampNs, c.sequence, None)
      && r'.preCancelState == r.state && r'.reconciledState == r.reconciledState
      && SameQuantities(r, r') && SameFailure(r, r') && r'.externalOrderId == r.externalOrderId
    case CancelResultEvent(c) =>
      && Stamped(r, r', match c.disposition
                        case CancelAccepted => Canceled
                        case AlreadyCanceled => Canceled
                        case AlreadyFilled => Filled
                        case CancelRejected => r.preCancelState
                        case CancelUnknown => Unknown, c.eventKey, c.timestampNs, c.sequence, None)
      && r'.failure == c.failure && r'.reason == c.reason
      && SameQuantities(r, r') && SameHistory(r, r') && r'.externalOrderId == r.externalOrderId
    case ReconcileEvent(_, resolved, filled, remaining, key, ts, n) =>
      && Stamped(r, r', Reconciled, key, ts, n, Some(resolved)) && r'.reconciledState == Some(resolved)
      && r'.filledQuantity == filled && r'.remainingQuantity == remaining
      && r'.preCancelState == r.preCancelState && SameFailure(r, r') && r'.externalOrderId == r.externalOrderId
  }

  /** An applied event spends its key, and makes of its order, and of no other, exactly what the table says. */
  lemma AppliedBecomes(s: Store, event: Event)
    requires MayApply(s, event)
    ensures var s' := ApplyEvent(s, event).0;
            var (id, key) := Target(event);
            && s'.appliedKeys == s.appliedKeys + {key}
            && s'.records.Keys == s.records.Keys + {id}
            && (forall other :: other in s.records && other != id ==> s'.records[other] == s.records[other])
            && (event.CreateEvent? <==> id !in s.records)
            && Becomes(if id in s.records then s.records[id] else s'.records[id], event, s'.records[id])
  {
    AppliedIff(s, event);
    EventIsCommit(s, event);
    hide ApplyEvent, MayApply, EventIsOlder, IsTerminal, Becomes, Updated;
    UpdatedBecomes(s, event);
  }

  /** Committing the updated order makes of it what the table says. */
  lemma UpdatedBecomes(s: Store, event: Event)
    requires ApplyEvent(s, event).1 == Applied
    requires event.CreateEvent? <==> event.Order() !in s.records
    ensures var id := event.Order();
            var s' := Commit(s, id, Updated(s, event), event.Key(), Timestamp(event), event.Sequence(),
                             ResolvedBy(event));
            && Target(event) == (id, event.Key())
            && Becomes(if id in s.records then s.records[id] else s'.records[id], event, s'.records[id])
  {
    hide ApplyEvent;
  }

  /** A rejected cancel puts the order back as it was before the cancel, but for its clock, failure and audit trail. */
  lemma RejectedCancelRestores(s: Store, request: CancelRequest, result: CancelResult)
    requires MayApply(s, CancelEvent(request)) && result.disposition == CancelRejected
    requires result.localOrderId == request.localOrderId
    requires MayApply(ApplyEvent(s, CancelEvent(request)).0, CancelResultEvent(result))
    ensures var s' := ApplyEvent(ApplyEvent(s, CancelEvent(request)).0, CancelResultEvent(result)).0;
            var r, r' := s.records[request.localOrderId], s'.records[request.localOrderId];
            && r'.state == r.state && SameQuantities(r, r') && r'.externalOrderId == r.externalOrderId
            && |r'.auditHistory| == |r.auditHistory| + 2
  {
    AppliedBecomes(s, CancelEvent(request));
    AppliedBecomes(ApplyEvent(s, CancelEvent(request)).0, CancelResultEvent(result));
    hide ApplyEvent;
  }
}
