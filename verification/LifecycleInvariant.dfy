/** What every sequence of lifecycle events keeps, over all orders and all event keys. */
module LifecycleInvariant {
  import opened Wrappers
  import opened MachineWords
  import opened BrokerContracts
  import opened OrderLifecycle

  // ---------------------------------------------------------------------------
  // The invariant of one order
  // ---------------------------------------------------------------------------

  /** Filled and remaining quantity account for the request, and the state agrees with them. */
  ghost predicate QuantitiesAgree(r: Record) {
    && r.request.quantity.units > 0
    && r.filledQuantity.scale == r.remainingQuantity.scale == r.request.quantity.scale
    && r.filledQuantity.units >= 0 && r.remainingQuantity.units >= 0
    && r.filledQuantity.units + r.remainingQuantity.units == r.request.quantity.units
    && (r.state == Filled ==> r.remainingQuantity.units == 0)
    && (r.remainingQuantity.units == 0 ==> r.state == Filled || r.state == Reconciled)
    && (r.state in {Created, RiskChecked, Submitted, Accepted, Rejected} ==> r.filledQuantity.units == 0)
    && (r.state == CancelRequested ==>
          && (r.preCancelState == Accepted || r.preCancelState == PartiallyFilled)
          && (r.preCancelState == Accepted ==> r.filledQuantity.units == 0))
  }

  /** No audit entry is stale with respect to the one before it. */
  ghost predicate AuditInOrder(audit: seq<AuditEntry>) {
    forall i :: 0 < i < |audit| ==>
      !IsOlder(audit[i - 1].timestampNs, audit[i - 1].sequence, audit[i].timestampNs, audit[i].sequence)
  }

  /** The audit ends with the order's current state and clock. */
  ghost predicate AuditCurrent(r: Record) {
    && r.auditHistory != []
    && var last := r.auditHistory[|r.auditHistory| - 1];
    && last.state == r.state
    && last.timestampNs == r.lastTimestampNs
    && last.sequence == r.lastSequence
  }

  ghost predicate RecordSound(id: u64, r: Record) {
    && r.request.localOrderId == id
    && id != 0 && r.request.quantity.scale <= MAX_SCALE
    && QuantitiesAgree(r)
    && AuditInOrder(r.auditHistory)
    && AuditCurrent(r)
  }

  // ---------------------------------------------------------------------------
  // The invariant of the store
  // ---------------------------------------------------------------------------

  /** Event `key` is the `i`-th audited event of order `id`. */
  ghost predicate Audited(s: Store, id: u64, i: int, key: EventKey) {
    && id in s.records
    && 0 <= i < |s.records[id].auditHistory|
    && s.records[id].auditHistory[i].eventKey == key
  }

  /** The spent keys are exactly the audited ones, and no key is audited twice, in any order. */
  ghost predicate KeysExact(s: Store) {
    && (forall key :: key in s.appliedKeys ==> exists id, i :: Audited(s, id, i, key))
    && (forall id, i, key :: Audited(s, id, i, key) ==> key in s.appliedKeys && !key.IsEmpty())
    && (forall id, i, id', j, key :: Audited(s, id, i, key) && Audited(s, id', j, key) ==> id == id' && i == j)
  }

  ghost predicate Sound(s: Store) {
    && (forall id :: id in s.records ==> RecordSound(id, s.records[id]))
    && KeysExact(s)
  }

  // ---------------------------------------------------------------------------
  // Every applied event is one commit
  // ---------------------------------------------------------------------------

  /** The order as an applied event leaves it, before the commit stamps and audits it. */
  ghost function Updated(s: Store, event: Event): Record
    requires ApplyEvent(s, event).1 == Applied
  {
    match event
    case CreateEvent(request) => NewRecord(request)
    case RiskCheckedEvent(id, _, _, _) => s.records[id].(state := RiskChecked)
    case SubmittedEvent(id, _, _, _) => s.records[id].(state := Submitted)
    case TimeoutEvent(id, _, _, _) => s.records[id].(state := Timeout)
    case UnknownEvent(id, _, failure, reason, _, _) =>
      s.records[id].(state := Unknown, failure := failure, reason := reason)
    case AckEvent(ack) =>
      s.records[ack.localOrderId].(state := if ack.accepted then Accepted else Rejected,
                                   externalOrderId := ack.externalOrderId,
                                   failure := ack.failure, reason := ack.reason)
    case FillEvent(e) =>
      s.records[e.localOrderId].(state := if e.remainingQuantity.IsZero() then Filled else PartiallyFilled,
                                 externalOrderId := e.externalOrderId,
                                 filledQuantity := e.cumulativeFilledQuantity,
                                 remainingQuantity := e.remainingQuantity)
    case CancelEvent(request) =>
      s.records[request.localOrderId].(preCancelState := s.records[request.localOrderId].state,
                                       state := CancelRequested)
    case CancelResultEvent(result) =>
      s.records[result.localOrderId].(state := AfterCancel(s.records[result.localOrderId], result.disposition),
                                      failure := result.failure, reason := result.reason)
    case ReconcileEvent(id, resolved, filled, remaining, _, _, _) =>
      s.records[id].(state := Reconciled, reconciledState := Some(resolved),
                     filledQuantity := filled, remainingQuantity := remaining)
  }

  function Timestamp(event: Event): u64 {
    match event
    case CreateEvent(request) => request.timestampNs
    case RiskCheckedEvent(_, _, ts, _) => ts
    case SubmittedEvent(_, _, ts, _) => ts
    case TimeoutEvent(_, _, ts, _) => ts
    case UnknownEvent(_, _, _, _, ts, _) => ts
    case AckEvent(ack) => ack.timestampNs
    case FillEvent(execution) => execution.timestampNs
    case CancelEvent(request) => request.timestampNs
    case CancelResultEvent(result) => result.timestampNs
    case ReconcileEvent(_, _, _, _, _, ts, _) => ts
  }

  function ResolvedBy(event: Event): Option<OrderLifecycleState> {
    if event.ReconcileEvent? then Some(event.resolved) else None
  }

  /** An event that is not applied changes nothing; one that is applied spends a fresh key in one commit. */
  lemma EventIsCommit(s: Store, event: Event)
    ensures ApplyEvent(s, event).1 != Applied ==> ApplyEvent(s, event).0 == s
    ensures ApplyEvent(s, event).1 == Applied ==>
              && ApplyEvent(s, event).0 ==
                 Commit(s, event.Order(), Updated(s, event), event.Key(), Timestamp(event), event.Sequence(),
                        ResolvedBy(event))
              && !event.Key().IsEmpty() && event.Key() !in s.appliedKeys
              && (event.CreateEvent? <==> event.Order() !in s.records)
              && (event.Order() in s.records ==>
                    && !IsTerminal(s.records[event.Order()].state)
                    && !EventIsOlder(s.records[event.Order()], Timestamp(event), event.Sequence())
                    && Updated(s, event).request == s.records[event.Order()].request
                    && Updated(s, event).auditHistory == s.records[event.Order()].auditHistory)
              && (event.Order() !in s.records ==> Updated(s, event).auditHistory == [])
  {
  }

  lemma UpdatedQuantitiesAgree(s: Store, event: Event)
    requires ApplyEvent(s, event).1 == Applied
    requires event.Order() in s.records ==> QuantitiesAgree(s.records[event.Order()])
    ensures QuantitiesAgree(Updated(s, event))
  {
  }

  lemma AuditGrowsInOrder(audit: seq<AuditEntry>, entry: AuditEntry)
    requires AuditInOrder(audit)
    requires audit != [] ==>
               !IsOlder(audit[|audit| - 1].timestampNs, audit[|audit| - 1].sequence, entry.timestampNs, entry.sequence)
    ensures AuditInOrder(audit + [entry])
  {
    var grown := audit + [entry];
    forall i | 0 < i < |grown|
      ensures !IsOlder(grown[i - 1].timestampNs, grown[i - 1].sequence, grown[i].timestampNs, grown[i].sequence)
    {
      if i < |audit| {
        assert grown[i] == audit[i] && grown[i - 1] == audit[i - 1];
      }
    }
  }

  lemma EventKeepsRecords(s: Store, event: Event)
    requires ApplyEvent(s, event).1 == Applied
    requires forall id :: id in s.records ==> RecordSound(id, s.records[id])
    ensures forall id :: id in ApplyEvent(s, event).0.records ==> RecordSound(id, ApplyEvent(s, event).0.records[id])
  {
    EventIsCommit(s, event);
    UpdatedQuantitiesAgree(s, event);
    var updated := Updated(s, event);
    var entry := AuditEntry(updated.state, ResolvedBy(event), event.Key(), updated.failure, updated.reason,
                            Timestamp(event), event.Sequence());
    AuditGrowsInOrder(updated.auditHistory, entry);
    assert event.CreateEvent? ==>
        event.request.localOrderId != 0 && event.request.quantity.scale <= MAX_SCALE;
    hide ApplyEvent, Updated, IsOlder;
    var s' := Commit(s, event.Order(), updated, event.Key(), Timestamp(event), event.Sequence(), ResolvedBy(event));
    forall id | id in s'.records ensures RecordSound(id, s'.records[id]) {
      if id != event.Order() {
        assert s'.records[id] == s.records[id];
      }
    }
  }

  lemma CommitKeepsKeys(s: Store, id: u64, updated: Record, key: EventKey, timestampNs: u64, sequence: u64,
                        reconciled: Option<OrderLifecycleState>)
    requires KeysExact(s) && key !in s.appliedKeys && !key.IsEmpty()
    requires updated.auditHistory == if id in s.records then s.records[id].auditHistory else []
    ensures KeysExact(Commit(s, id, updated, key, timestampNs, sequence, reconciled))
  {
    var s' := Commit(s, id, updated, key, timestampNs, sequence, reconciled);
    var n := |updated.auditHistory|;
    assert Audited(s', id, n, key);
    forall other, i, k | Audited(s', other, i, k)
      ensures if other == id && i == n then k == key else Audited(s, other, i, k)
    {
    }
    forall k | k in s'.appliedKeys ensures exists other, i :: Audited(s', other, i, k) {
      if k != key {
        var other, i :| Audited(s, other, i, k);
        assert Audited(s', other, i, k);
      }
    }
  }

  lemma EventKeepsSound(s: Store, event: Event)
    requires Sound(s)
    ensures Sound(ApplyEvent(s, event).0)
  {
    EventIsCommit(s, event);
    if ApplyEvent(s, event).1 == Applied {
      EventKeepsRecords(s, event);
      CommitKeepsKeys(s, event.Order(), Updated(s, event), event.Key(), Timestamp(event), event.Sequence(),
                      ResolvedBy(event));
    }
  }

  /**
   The lifecycle invariant: after any events whatsoever every order's quantities agree with its
   state, every audit trail is in order and current, and the keys spent are exactly the keys
   audited, each once.
   */
  lemma {:induction false} RunKeepsSound(events: seq<Event>)
    ensures Sound(Run(EMPTY_STORE, events))
  {
    if events != [] {
      RunKeepsSound(events[..|events| - 1]);
      EventKeepsSound(Run(EMPTY_STORE, events[..|events| - 1]), events[|events| - 1]);
    }
  }

  // ---------------------------------------------------------------------------
  // Finality and exactly-once application
  // ---------------------------------------------------------------------------

  /** One event never touches another order, nor an order in a terminal state; it only adds keys. */
  lemma EventFrame(s: Store, event: Event, id: u64)
    requires id in s.records && (IsTerminal(s.records[id].state) || id != event.Order())
    ensures id in ApplyEvent(s, event).0.records
    ensures ApplyEvent(s, event).0.records[id] == s.records[id]
  {
    EventIsCommit(s, event);
  }

  /** An event touches only its own order, never changes what was requested, and only a creation adds one. */
  lemma EventTouchesOneOrder(s: Store, event: Event)
    ensures var s' := ApplyEvent(s, event).0;
            && (forall id :: id != event.Order() ==>
                  && (id in s'.records <==> id in s.records)
                  && (id in s.records ==> s'.records[id] == s.records[id]))
            && (event.Order() in s.records ==>
                  && event.Order() in s'.records
                  && s'.records[event.Order()].request == s.records[event.Order()].request)
            && (!event.CreateEvent? && event.Order() !in s.records ==> event.Order() !in s'.records)
  {
    EventIsCommit(s, event);
    hide ApplyEvent, Updated;
  }

  /** A terminal state is final: no later events change anything about the order. */
  lemma {:induction false} TerminalIsFinal(s: Store, events: seq<Event>, id: u64)
    requires id in s.records && IsTerminal(s.records[id].state)
    ensures id in Run(s, events).records && Run(s, events).records[id] == s.records[id]
  {
    if events != [] {
      TerminalIsFinal(s, events[..|events| - 1], id);
      EventFrame(Run(s, events[..|events| - 1]), events[|events| - 1], id);
    }
  }

  lemma {:induction false} KeysOnlyGrow(s: Store, events: seq<Event>, n: nat)
    requires n <= |events|
    ensures Run(s, events[..n]).appliedKeys <= Run(s, events).appliedKeys
    decreases |events|
  {
    if n == |events| {
      assert events[..n] == events;
    } else {
      var front := events[..|events| - 1];
      assert front[..n] == events[..n];
      KeysOnlyGrow(s, front, n);
      EventIsCommit(Run(s, front), events[|events| - 1]);
    }
  }

  ghost predicate AppliedAt(s: Store, events: seq<Event>, i: nat)
    requires i < |events|
  {
    ApplyEvent(Run(s, events[..i]), events[i]).1 == Applied
  }

  /** Of all the events in a run that carry one key, at most one is ever applied. */
  lemma KeyAppliesOnce(s: Store, events: seq<Event>, i: nat, j: nat)
    requires i < j < |events| && AppliedAt(s, events, i) && AppliedAt(s, events, j)
    ensures events[i].Key() != events[j].Key()
  {
    EventIsCommit(Run(s, events[..i]), events[i]);
    assert events[..i + 1][..i] == events[..i];
    assert events[i].Key() in Run(s, events[..i + 1]).appliedKeys;
    assert events[..j][..i + 1] == events[..i + 1];
    KeysOnlyGrow(s, events[..j], i + 1);
    EventIsCommit(Run(s, events[..j]), events[j]);
  }

  /** The audited sequence numbers rise strictly. */
  ghost predicate StrictlyRising(audit: seq<AuditEntry>) {
    forall i :: 0 < i < |audit| ==> audit[i - 1].sequence < audit[i].sequence
  }

  /**
   An audit trail rises strictly if and only if no event after the first carried sequence number
   zero: a zero is compared by timestamp instead and resets the order's sequence.
   */
  lemma AuditRisesIffNumbered(s: Store, id: u64)
    requires Sound(s) && id in s.records
    ensures var audit := s.records[id].auditHistory;
            StrictlyRising(audit) <==> forall i :: 0 < i < |audit| ==> audit[i].sequence > 0
  {
    var audit := s.records[id].auditHistory;
    assert RecordSound(id, s.records[id]);
    if StrictlyRising(audit) {
      forall i | 0 < i < |audit| ensures audit[i].sequence > 0 {
        assert audit[i - 1].sequence < audit[i].sequence;
      }
    }
    if forall i :: 0 < i < |audit| ==> audit[i].sequence > 0 {
      forall i | 0 < i < |audit| ensures audit[i - 1].sequence < audit[i].sequence {
        assert !IsOlder(audit[i - 1].timestampNs, audit[i - 1].sequence, audit[i].timestampNs, audit[i].sequence);
      }
    }
  }

  /** The events a run applied to one order, in order. */
  ghost function AppliedTo(events: seq<Event>, id: u64): seq<Event> {
    if events == [] then []
    else
      var front, last := events[..|events| - 1], events[|events| - 1];
      AppliedTo(front, id) +
      if last.Order() == id && ApplyEvent(Run(EMPTY_STORE, front), last).1 == Applied then [last] else []
  }

  /** The audit trail records one applied event after another. */
  ghost predicate Records(audit: seq<AuditEntry>, applied: seq<Event>) {
    && |audit| == |applied|
    && forall i :: 0 <= i < |audit| ==>
         audit[i].sequence == applied[i].Sequence() && audit[i].eventKey == applied[i].Key()
  }

  lemma EventExtendsTrail(s: Store, event: Event, id: u64, applied: seq<Event>)
    requires if id in s.records then Records(s.records[id].auditHistory, applied) else applied == []
    ensures var (s', result) := ApplyEvent(s, event);
            var applied' := applied + if event.Order() == id && result == Applied then [event] else [];
            if id in s'.records then Records(s'.records[id].auditHistory, applied') else applied' == []
  {
    EventIsCommit(s, event);
    hide ApplyEvent, Updated;
  }

  /** The audit trail of an order is the list of events that were applied to it. */
  lemma {:induction false} TrailIsAppliedEvents(events: seq<Event>, id: u64)
    ensures var s := Run(EMPTY_STORE, events);
            if id in s.records then Records(s.records[id].auditHistory, AppliedTo(events, id))
            else AppliedTo(events, id) == []
  {
    hide ApplyEvent, Records;
    if events == [] {
    } else {
      var front, last := events[..|events| - 1], events[|events| - 1];
      TrailIsAppliedEvents(front, id);
      EventExtendsTrail(Run(EMPTY_STORE, front), last, id, AppliedTo(front, id));
    }
  }

  lemma {:induction false} AppliedAreSent(events: seq<Event>, id: u64)
    ensures forall e :: e in AppliedTo(events, id) ==> e in events
  {
    hide ApplyEvent;
    if events != [] {
      AppliedAreSent(events[..|events| - 1], id);
    }
  }

  /**
   After any run, the trail of an order rises strictly if and only if every event applied to it after
   the one that created it carried a positive sequence.
   */
  lemma TrailRisesIffEventsAreNumbered(events: seq<Event>, id: u64)
    requires id in Run(EMPTY_STORE, events).records
    ensures var applied := AppliedTo(events, id);
            StrictlyRising(Run(EMPTY_STORE, events).records[id].auditHistory) <==>
              forall i :: 0 < i < |applied| ==> applied[i].Sequence() > 0
  {
    RunKeepsSound(events);
    AuditRisesIffNumbered(Run(EMPTY_STORE, events), id);
    TrailIsAppliedEvents(events, id);
    hide Run, Sound, AppliedTo, StrictlyRising;
  }

  /** When every event sent carries a positive sequence, every audit trail rises strictly. */
  lemma PositiveSequencesRise(events: seq<Event>, id: u64)
    requires forall e :: e in events ==> e.Sequence() > 0
    requires id in Run(EMPTY_STORE, events).records
    ensures StrictlyRising(Run(EMPTY_STORE, events).records[id].auditHistory)
  {
    TrailRisesIffEventsAreNumbered(events, id);
    AppliedAreSent(events, id);
    hide Run, AppliedTo, StrictlyRising;
    var applied := AppliedTo(events, id);
    forall i | 0 < i < |applied| ensures applied[i].Sequence() > 0 {
      assert applied[i] in applied;
    }
  }

  /** An admitted event never lowers what an order has filled, unless it is a reconciliation that reports less. */
  lemma FilledFallsOnlyByReconciliation(s: Store, event: Event)
    requires Sound(s) && ApplyEvent(s, event).1 == Applied && event.Order() in s.records
    ensures var before, after := s.records[event.Order()], ApplyEvent(s, event).0.records[event.Order()];
            after.filledQuantity.units < before.filledQuantity.units <==>
              event.ReconcileEvent? && event.cumulativeFilled.units < before.filledQuantity.units
  {
    EventIsCommit(s, event);
  }

  /** The broker can never report a cancel as already filled: while a cancel is pending something remains. */
  lemma AlreadyFilledIsNeverApplied(s: Store, result: CancelResult)
    requires Sound(s) && result.disposition == AlreadyFilled
    ensures ApplyCancelResult(s, result).1 != Applied
  {
    if result.localOrderId in s.records {
      assert RecordSound(result.localOrderId, s.records[result.localOrderId]);
    }
  }

  // ---------------------------------------------------------------------------
  // Concrete runs
  // ---------------------------------------------------------------------------

  function OneUnit(id: u64, sequence: u64): OrderRequest {
    OrderRequest(id, "X", Buy, Market, Decimal64(2, 0), None, None, None, "", 1, sequence, Named("create"))
  }

  /** An event numbered zero resets the sequence, after which an older number is admitted again. */
  lemma ZeroSequenceResets()
    ensures var events := [CreateEvent(OneUnit(1, 9)),
                           RiskCheckedEvent(1, Named("risk"), 1, 0),
                           SubmittedEvent(1, Named("submit"), 1, 5)];
            var s := Run(EMPTY_STORE, events);
            && 1 in s.records && s.records[1].state == Submitted
            && !StrictlyRising(s.records[1].auditHistory)
  {
    var create, risk, submit := CreateEvent(OneUnit(1, 9)), RiskCheckedEvent(1, Named("risk"), 1, 0),
                                SubmittedEvent(1, Named("submit"), 1, 5);
    RunOfThree(create, risk, submit);
    CheckedSecond();
    hide Run, Create;
    var s2 := ApplyEvent(ApplyEvent(EMPTY_STORE, create).0, risk).0;
    AdmitAfter(s2, RiskChecked, Submitted, Named("submit"), 5);
    hide Transition, CanTransition;
    var s3 := ApplyEvent(s2, submit).0;
    assert s3.records[1].auditHistory[0].sequence == 9 && s3.records[1].auditHistory[1].sequence == 0;
  }

  lemma CreatedFirst()
    ensures var s := ApplyEvent(EMPTY_STORE, CreateEvent(OneUnit(1, 9))).0;
            && 1 in s.records && s.records[1].state == Created && s.records[1].lastTimestampNs == 1
            && |s.records[1].auditHistory| == 1 && s.records[1].auditHistory[0].sequence == 9
            && s.appliedKeys == {Named("create")}
  {
  }

  lemma CheckedSecond()
    ensures var s := ApplyEvent(ApplyEvent(EMPTY_STORE, CreateEvent(OneUnit(1, 9))).0,
                                RiskCheckedEvent(1, Named("risk"), 1, 0)).0;
            && 1 in s.records && s.records[1].state == RiskChecked && s.records[1].lastTimestampNs == 1
            && s.records[1].lastSequence == 0 && |s.records[1].auditHistory| == 2
            && s.records[1].auditHistory[0].sequence == 9 && s.records[1].auditHistory[1].sequence == 0
            && s.appliedKeys == {Named("create"), Named("risk")}
  {
    CreatedFirst();
    hide Create;
    AdmitAfter(ApplyEvent(EMPTY_STORE, CreateEvent(OneUnit(1, 9))).0, Created, RiskChecked, Named("risk"), 0);
    hide Transition, CanTransition;
  }

  lemma AdmitAfter(s: Store, from: OrderLifecycleState, to: OrderLifecycleState, key: EventKey, sequence: u64)
    requires 1 in s.records && s.records[1].state == from && CanTransition(from, to)
    requires s.records[1].lastTimestampNs == 1 && (sequence == 0 || s.records[1].lastSequence == 0)
    requires key !in s.appliedKeys && !key.IsEmpty()
    ensures var s' := Transition(s, 1, to, key, 1, sequence).0;
            && 1 in s'.records && s'.records[1].state == to
            && s'.records[1].lastTimestampNs == 1 && s'.records[1].lastSequence == sequence
            && s'.appliedKeys == s.appliedKeys + {key}
            && |s'.records[1].auditHistory| == |s.records[1].auditHistory| + 1
            && s'.records[1].auditHistory[|s.records[1].auditHistory|].sequence == sequence
            && s.records[1].auditHistory <= s'.records[1].auditHistory
  {
  }

  lemma RunOfThree(a: Event, b: Event, c: Event)
    ensures Run(EMPTY_STORE, [a, b, c]) == ApplyEvent(ApplyEvent(ApplyEvent(EMPTY_STORE, a).0, b).0, c).0
  {
    hide ApplyEvent;
    var events := [a, b, c];
    assert events[..2] == [a, b] && [a, b][..1] == [a] && [a][..0] == [];
    assert Run(EMPTY_STORE, [a]) == ApplyEvent(EMPTY_STORE, a).0;
    assert Run(EMPTY_STORE, [a, b]) == ApplyEvent(Run(EMPTY_STORE, [a]), b).0;
  }
}
