/**
 Exactly-once booking of fills. Executions pass through the lifecycle store, the engine and the
 ledger; however they are repeated, reordered, malformed or failed, what the ledger holds for an
 order is never more than the order's recorded fill, and exactly that whenever its latest
 execution was booked.
 */
module ExactlyOnce {
  import opened Wrappers
  import opened MachineWords
  import opened FinancialMath
  import opened SortedKeys
  import opened TableTotals
  import opened BrokerContracts
  import opened StepNormalization
  import opened ExecutionBooking
  import LC = OrderLifecycle
  import LI = LifecycleInvariant
  import L = PortfolioLedger
  import C = LedgerConservation

  /** What the ledger has been given for one order so far. */
  datatype Booking = Booking(side: OrderSide, quantity: int)

  /**
   Store, engine and ledger, together with the history of what was booked (`booked`) and the orders
   whose latest accepted execution was booked without error (`clean`).
   */
  datatype Pipeline = Pipeline(
    store: LC.Store,
    engine: Engine,
    ledger: L.Ledger,
    booked: map<u64, Booking>,
    clean: set<u64>)

  function Find(s: LC.Store, id: u64): Option<LC.Record> {
    if id in s.records then Some(s.records[id]) else None
  }

  function BookedSoFar(p: Pipeline, id: u64): int {
    if id in p.booked then p.booked[id].quantity else 0
  }

  /** The gateway's handling of an execution report: the store first, then the bound engine. */
  function HandleExecution(p: Pipeline, execution: ExecutionEvent, h: HashOrder): (Pipeline, LC.ApplyResult) {
    var (store, result) := LC.ApplyExecution(p.store, execution);
    if result != LC.Applied then (p, result)
    else
      var id := execution.localOrderId;
      var (engine, ledger, ok) := OnExecution(p.engine, p.ledger, Find(store, id), execution, h);
      var next := p.(store := store, engine := engine, ledger := ledger);
      if !ok then (next.(clean := p.clean - {id}), result)
      else
        var quantity := BookedSoFar(p, id) + FillOf(p.engine, execution).value.incremental;
        (next.(booked := p.booked[id := Booking(store.records[id].request.side, quantity)],
               clean := p.clean + {id}), result)
  }

  datatype PipelineEvent =
    | Execution(execution: ExecutionEvent, h: HashOrder)
    | Lifecycle(event: LC.Event)
    | LedgerOperation(operation: C.Operation, h: HashOrder)

  /**
   The events of a run: any executions; any other lifecycle events except reconciliation, which the
   gateway never applies; and ledger operations that leave the engine's own position to the engine.
   */
  predicate Admissible(symbol: string, event: PipelineEvent) {
    match event
    case Execution(_, _) => true
    case Lifecycle(e) => !e.FillEvent? && !e.ReconcileEvent?
    case LedgerOperation(op, _) =>
      match op
      case Open(order, _, _) => order.symbol != symbol
      case Add(order, _, _) => order.symbol != symbol
      case Close(order, _) => order.symbol != symbol
      case Mark(_, _) => true
  }

  ghost function Step(p: Pipeline, event: PipelineEvent): Pipeline {
    match event
    case Execution(execution, h) => HandleExecution(p, execution, h).0
    case Lifecycle(e) => p.(store := LC.ApplyEvent(p.store, e).0)
    case LedgerOperation(op, h) => p.(ledger := C.Step(p.ledger, op, h))
  }

  ghost function Run(p: Pipeline, events: seq<PipelineEvent>): Pipeline {
    if events == [] then p else Step(Run(p, events[..|events| - 1]), events[|events| - 1])
  }

  // ---------------------------------------------------------------------------
  // The invariant
  // ---------------------------------------------------------------------------

  function Signed(b: Booking): int {
    if b.side == Buy then b.quantity else 0 - b.quantity
  }

  /** A quantity in units of 10^-8 compared with a decimal, both in units of 10^-12. */
  ghost function UnitsWorth(quantity: int): int {
    quantity * Pow10(MAX_SCALE - SCALE)
  }

  ghost predicate OrderBooked(p: Pipeline, id: u64, b: Booking) {
    && id in p.store.records
    && var r := p.store.records[id];
    && r.filledQuantity.scale <= MAX_SCALE
    && b.side == r.request.side
    && r.request.canonicalSymbol == p.engine.symbol
    && b.quantity > 0
    && UnitsWorth(b.quantity) <= Worth(r.filledQuantity)
    && (if id in p.engine.appliedQuantity then p.engine.appliedQuantity[id] == b.quantity else r.state == Filled)
    && (id in p.clean ==> UnitsWorth(b.quantity) == Worth(r.filledQuantity))
  }

  ghost predicate Exact(p: Pipeline, initiallyHeld: int) {
    && LI.Sound(p.store)
    && C.Sound(p.ledger)
    && p.engine.symbol != ""
    && (forall id :: id in p.booked ==> OrderBooked(p, id, p.booked[id]))
    && (forall id :: id in p.engine.appliedQuantity ==> id in p.booked)
    && p.clean <= p.booked.Keys
    && Held(p.ledger, p.engine.symbol) == initiallyHeld + Total(p.booked, Signed)
  }

  // ---------------------------------------------------------------------------
  // Conversions
  // ---------------------------------------------------------------------------

  lemma ToUnitsIsExact(d: Decimal64)
    requires d.scale <= MAX_SCALE && ToUnits(d).Some?
    ensures UnitsWorth(ToUnits(d).value) == Worth(d)
  {
    hide Pow10;
    if d.scale <= SCALE {
      Pow10Sum(SCALE - d.scale, MAX_SCALE - SCALE);
      Regroup(d.units, Pow10(SCALE - d.scale), Pow10(MAX_SCALE - SCALE));
    } else {
      Pow10Sum(d.scale - SCALE, MAX_SCALE - d.scale);
      WholeQuotient(d.units, Pow10(d.scale - SCALE), Pow10(MAX_SCALE - d.scale));
    }
  }

  lemma WholeQuotient(n: int, p: nat, rest: nat)
    requires p > 0 && n % p == 0
    ensures n / p * (p * rest) == n * rest
  {
    var q := n / p;
    assert n == q * p;
    Regroup(q, p, rest);
  }

  // ---------------------------------------------------------------------------
  // The ledger's side
  // ---------------------------------------------------------------------------

  /** A booking moves the position by exactly the increment, in the order's direction. */
  lemma BookingMovesPosition(s: L.Ledger, symbol: string, side: OrderSide, strategyId: string, timestamp: u64,
                             fill: Fill, h: HashOrder)
    requires C.Sound(s) && fill.incremental > 0
    requires BookOnLedger(s, symbol, side, strategyId, timestamp, fill, h).Some?
    ensures var s' := BookOnLedger(s, symbol, side, strategyId, timestamp, fill, h).value;
            && C.Sound(s')
            && Held(s', symbol) == Held(s, symbol) + (if side == Buy then fill.incremental else 0 - fill.incremental)
  {
    hide L.OpenLong, L.AddToLong, L.ClosePosition, Notional;
    var order := L.Order(symbol, fill.price, timestamp, fill.fee, strategyId);
    if side == Buy {
      var debit := CheckedAdd(Notional(fill.price, fill.incremental).value, fill.fee).value;
      if symbol !in s.positions {
        C.OpenLongConserves(s, order, L.BudgetOf(debit), fill.incremental, h);
      } else {
        C.AddToLongConserves(s, order, fill.incremental, debit, h);
      }
    } else {
      C.ClosePositionConserves(s, order, fill.incremental, h);
      C.ClosePositionQuantity(s, order, fill.incremental, h);
    }
  }

  // ---------------------------------------------------------------------------
  // One event
  // ---------------------------------------------------------------------------

  /** Orders other than the executed one keep their bookings. */
  lemma OtherOrdersKept(p: Pipeline, q: Pipeline, id: u64)
    requires forall other :: other in p.booked ==> OrderBooked(p, other, p.booked[other])
    requires q.engine.symbol == p.engine.symbol
    requires forall other :: other != id && other in p.store.records ==>
               other in q.store.records && q.store.records[other] == p.store.records[other]
    requires forall other :: other != id ==>
               && (other in q.engine.appliedQuantity <==> other in p.engine.appliedQuantity)
               && (other in q.engine.appliedQuantity ==>
                     q.engine.appliedQuantity[other] == p.engine.appliedQuantity[other])
               && (other in q.clean ==> other in p.clean)
    ensures forall other :: other in p.booked && other != id ==> OrderBooked(q, other, p.booked[other])
  {
    hide Worth, UnitsWorth;
  }

  lemma AppliedExecution(s: LC.Store, execution: ExecutionEvent)
    requires LI.Sound(s) && LC.ApplyExecution(s, execution).1 == LC.Applied
    ensures var id, s' := execution.localOrderId, LC.ApplyExecution(s, execution).0;
            && LI.Sound(s')
            && id in s.records && id in s'.records
            && s.records[id].state != Filled
            && s'.records[id].request == s.records[id].request
            && s'.records[id].filledQuantity == execution.cumulativeFilledQuantity
            && s.records[id].filledQuantity.scale == execution.cumulativeFilledQuantity.scale <= MAX_SCALE
            && s.records[id].filledQuantity.units <= execution.cumulativeFilledQuantity.units
            && execution.remainingQuantity.scale <= MAX_SCALE
            && (execution.remainingQuantity.units == 0 ==> s'.records[id].state == Filled)
            && (forall other :: other != id && other in s.records ==>
                  other in s'.records && s'.records[other] == s.records[other])
  {
    LI.EventKeepsSound(s, LC.FillEvent(execution));
    assert LI.RecordSound(execution.localOrderId, s.records[execution.localOrderId]);
  }

  /** An execution the engine cannot book leaves what is booked at or below the recorded fill. */
  lemma FailedExecutionKeepsExact(p: Pipeline, execution: ExecutionEvent, h: HashOrder, initiallyHeld: int)
    requires Exact(p, initiallyHeld) && LC.ApplyExecution(p.store, execution).1 == LC.Applied
    requires !OnExecution(p.engine, p.ledger, Find(LC.ApplyExecution(p.store, execution).0, execution.localOrderId),
                          execution, h).2
    ensures Exact(HandleExecution(p, execution, h).0, initiallyHeld)
  {
    hide LC.ApplyExecution, BookOnLedger, FillOf, LI.Sound, C.Sound, Worth, UnitsWorth, Signed, Held;
    var id := execution.localOrderId;
    AppliedExecution(p.store, execution);
    var q := HandleExecution(p, execution, h).0;
    OtherOrdersKept(p, q, id);
    if id in p.booked {
      assert OrderBooked(p, id, p.booked[id]);
      WorthMonotone(p.store.records[id].filledQuantity, execution.cumulativeFilledQuantity);
      assert OrderBooked(q, id, p.booked[id]);
    }
  }

  lemma WorthMonotone(a: Decimal64, b: Decimal64)
    requires a.scale == b.scale <= MAX_SCALE && a.units <= b.units
    ensures Worth(a) <= Worth(b)
  {
    hide Pow10;
    MulMono(a.units, b.units, Pow10(MAX_SCALE - a.scale));
  }

  /** The engine's previous figure for an order it may still fill is what was booked for it. */
  lemma EngineKnowsBooked(p: Pipeline, execution: ExecutionEvent, initiallyHeld: int)
    requires Exact(p, initiallyHeld) && LC.ApplyExecution(p.store, execution).1 == LC.Applied
    requires FillOf(p.engine, execution).Some?
    ensures var fill := FillOf(p.engine, execution).value;
            && fill.incremental > 0
            && BookedSoFar(p, execution.localOrderId) + fill.incremental == fill.cumulative
            && fill.cumulative > 0
            && UnitsWorth(fill.cumulative) == Worth(execution.cumulativeFilledQuantity)
            && (fill.remaining <= 0 ==> execution.remainingQuantity.units == 0)
  {
    hide ToUnits, Worth, UnitsWorth, LI.Sound, C.Sound, Signed;
    AppliedExecution(p.store, execution);
    FillParts(p.engine, execution);
    ToUnitsIsExact(execution.cumulativeFilledQuantity);
    AcceptedRemainder(p.store, execution);
    if FillOf(p.engine, execution).value.remaining <= 0 {
      NothingRemains(execution.remainingQuantity);
    }
    hide LC.ApplyExecution, FillOf;
    if execution.localOrderId in p.booked {
      assert OrderBooked(p, execution.localOrderId, p.booked[execution.localOrderId]);
    }
  }

  lemma FillParts(e: Engine, execution: ExecutionEvent)
    requires FillOf(e, execution).Some?
    ensures var fill, id := FillOf(e, execution).value, execution.localOrderId;
            && ToUnits(execution.cumulativeFilledQuantity) == Some(fill.cumulative)
            && ToUnits(execution.remainingQuantity) == Some(fill.remaining)
            && fill.cumulative > 0 && fill.incremental > 0
            && fill.incremental == fill.cumulative - (if id in e.appliedQuantity then e.appliedQuantity[id] else 0)
  {
    hide ToUnits;
  }

  lemma AcceptedRemainder(s: LC.Store, execution: ExecutionEvent)
    requires LC.ApplyExecution(s, execution).1 == LC.Applied
    ensures execution.remainingQuantity.units >= 0
  {
  }

  lemma BookedShape(p: Pipeline, execution: ExecutionEvent, h: HashOrder, store: LC.Store)
    requires LC.ApplyExecution(p.store, execution) == (store, LC.Applied)
    requires execution.localOrderId in store.records
    requires OnExecution(p.engine, p.ledger, Find(store, execution.localOrderId), execution, h).2
    ensures FillOf(p.engine, execution).Some?
    ensures var id, fill, r := execution.localOrderId, FillOf(p.engine, execution).value,
                               store.records[execution.localOrderId];
            var booking := BookOnLedger(p.ledger, p.engine.symbol, r.request.side, r.request.sourceId,
                                        execution.timestampNs, fill, h);
            && r.request.canonicalSymbol == p.engine.symbol
            && booking.Some?
            && HandleExecution(p, execution, h).0 ==
               Pipeline(store, RecordFill(p.engine, id, fill), booking.value,
                        p.booked[id := Booking(r.request.side, BookedSoFar(p, id) + fill.incremental)],
                        p.clean + {id})
  {
    hide LC.ApplyExecution, BookOnLedger, FillOf;
  }

  /** A booked execution brings what is booked for the order to exactly the recorded fill. */
  lemma BookedExecutionKeepsExact(p: Pipeline, execution: ExecutionEvent, h: HashOrder, initiallyHeld: int)
    requires Exact(p, initiallyHeld) && LC.ApplyExecution(p.store, execution).1 == LC.Applied
    requires OnExecution(p.engine, p.ledger, Find(LC.ApplyExecution(p.store, execution).0, execution.localOrderId),
                         execution, h).2
    ensures Exact(HandleExecution(p, execution, h).0, initiallyHeld)
    ensures execution.localOrderId in HandleExecution(p, execution, h).0.clean
  {
    hide LC.ApplyExecution, BookOnLedger, FillOf, OnExecution, HandleExecution, LI.Sound, C.Sound, Worth, UnitsWorth;
    hide OrderBooked, Signed, Held;
    var id := execution.localOrderId;
    var store := LC.ApplyExecution(p.store, execution).0;
    AppliedExecution(p.store, execution);
    BookedShape(p, execution, h, store);
    EngineKnowsBooked(p, execution, initiallyHeld);
    var fill := FillOf(p.engine, execution).value;
    var request := store.records[id].request;
    var q := HandleExecution(p, execution, h).0;
    BookingMovesPosition(p.ledger, p.engine.symbol, request.side, request.sourceId, execution.timestampNs, fill, h);
    NewBookingHolds(p, q, id, fill);
    SideOfBooking(p, id, request.side);
    BookedTotal(p, id, request.side, fill.cumulative, fill.incremental);
  }

  /** After a booking the executed order is booked to its recorded fill and every other order is as before. */
  lemma NewBookingHolds(p: Pipeline, q: Pipeline, id: u64, fill: Fill)
    requires forall other :: other in p.booked ==> OrderBooked(p, other, p.booked[other])
    requires forall other :: other in p.engine.appliedQuantity ==> other in p.booked
    requires forall other :: other != id && other in p.store.records ==>
               other in q.store.records && q.store.records[other] == p.store.records[other]
    requires id in q.store.records
    requires q.engine == RecordFill(p.engine, id, fill) && q.clean == p.clean + {id}
    requires var r := q.store.records[id];
             && q.booked == p.booked[id := Booking(r.request.side, fill.cumulative)]
             && r.filledQuantity.scale <= MAX_SCALE
             && r.request.canonicalSymbol == p.engine.symbol
             && fill.cumulative > 0
             && UnitsWorth(fill.cumulative) == Worth(r.filledQuantity)
             && (fill.remaining <= 0 ==> r.state == Filled)
    ensures forall other :: other in q.booked ==> OrderBooked(q, other, q.booked[other])
    ensures forall other :: other in q.engine.appliedQuantity ==> other in q.booked
  {
    hide Worth, UnitsWorth;
    OtherOrdersKept(p, q, id);
    assert OrderBooked(q, id, q.booked[id]);
  }

  lemma SideOfBooking(p: Pipeline, id: u64, side: OrderSide)
    requires id in p.booked ==> OrderBooked(p, id, p.booked[id])
    requires id in p.store.records ==> p.store.records[id].request.side == side
    ensures id in p.booked ==> p.booked[id].side == side
  {
    hide Worth, UnitsWorth;
  }

  lemma BookedTotal(p: Pipeline, id: u64, side: OrderSide, cumulative: int, incremental: int)
    requires BookedSoFar(p, id) + incremental == cumulative
    requires id in p.booked ==> p.booked[id].side == side
    ensures Total(p.booked[id := Booking(side, cumulative)], Signed)
         == Total(p.booked, Signed) + (if side == Buy then incremental else 0 - incremental)
  {
    if id in p.booked {
      TotalUpdate(p.booked, id, Booking(side, cumulative), Signed);
    } else {
      TotalInsert(p.booked, id, Booking(side, cumulative), Signed);
    }
  }

  lemma NothingRemains(d: Decimal64)
    requires d.scale <= MAX_SCALE && ToUnits(d).Some? && ToUnits(d).value <= 0 && d.units >= 0
    ensures d.units == 0
  {
  }

  /** Lifecycle events other than fills and reconciliations leave requests and fills alone. */
  lemma LifecycleKeepsExact(p: Pipeline, event: LC.Event, initiallyHeld: int)
    requires Exact(p, initiallyHeld) && !event.FillEvent? && !event.ReconcileEvent?
    ensures Exact(p.(store := LC.ApplyEvent(p.store, event).0), initiallyHeld)
  {
    hide LC.ApplyEvent, LI.Sound, C.Sound, Worth, UnitsWorth, Signed;
    LI.EventKeepsSound(p.store, event);
    var store := LC.ApplyEvent(p.store, event).0;
    forall id | id in p.store.records
      ensures id in store.records && FillKept(p.store.records[id], store.records[id])
    {
      LifecycleFrame(p.store, event, id);
    }
    var q := p.(store := store);
    forall id | id in p.booked ensures OrderBooked(q, id, p.booked[id]) {
      assert OrderBooked(p, id, p.booked[id]);
      assert FillKept(p.store.records[id], store.records[id]);
    }
  }

  ghost predicate FillKept(before: LC.Record, after: LC.Record) {
    && after.request == before.request
    && after.filledQuantity == before.filledQuantity
    && (before.state == Filled ==> after.state == Filled)
  }

  lemma LifecycleFrame(s: LC.Store, event: LC.Event, id: u64)
    requires !event.FillEvent? && !event.ReconcileEvent? && id in s.records
    ensures id in LC.ApplyEvent(s, event).0.records
    ensures FillKept(s.records[id], LC.ApplyEvent(s, event).0.records[id])
  {
    LI.EventIsCommit(s, event);
    hide LC.ApplyEvent;
  }

  /** Ledger operations elsewhere, and marks anywhere, leave the engine's position as it was. */
  lemma LedgerStepKeepsHeld(s: L.Ledger, op: C.Operation, h: HashOrder, symbol: string)
    requires C.Sound(s) && Admissible(symbol, LedgerOperation(op, h))
    ensures C.Sound(C.Step(s, op, h)) && Held(C.Step(s, op, h), symbol) == Held(s, symbol)
  {
    C.StepConserves(s, op, h);
    if C.Apply(s, op, h).Ok? {
      C.StepFrame(s, op, h);
    }
  }

  lemma StepKeepsExact(p: Pipeline, event: PipelineEvent, initiallyHeld: int)
    requires Exact(p, initiallyHeld) && Admissible(p.engine.symbol, event)
    ensures Exact(Step(p, event), initiallyHeld) && Step(p, event).engine.symbol == p.engine.symbol
  {
    hide Exact, C.Step, LC.ApplyExecution, LC.ApplyEvent, OnExecution;
    match event
    case Execution(execution, h) =>
      ExecutionKeepsExact(p, execution, h, initiallyHeld);
    case Lifecycle(e) =>
      LifecycleKeepsExact(p, e, initiallyHeld);
    case LedgerOperation(op, h) =>
      LedgerStepKeepsExact(p, op, h, initiallyHeld);
  }

  lemma ExecutionKeepsExact(p: Pipeline, execution: ExecutionEvent, h: HashOrder, initiallyHeld: int)
    requires Exact(p, initiallyHeld)
    ensures Exact(HandleExecution(p, execution, h).0, initiallyHeld)
    ensures HandleExecution(p, execution, h).0.engine.symbol == p.engine.symbol
  {
    EngineKeepsSymbol(p.engine, p.ledger, Find(LC.ApplyExecution(p.store, execution).0, execution.localOrderId),
                      execution, h);
    hide Exact, LC.ApplyExecution, OnExecution;
    if LC.ApplyExecution(p.store, execution).1 == LC.Applied {
      if OnExecution(p.engine, p.ledger, Find(LC.ApplyExecution(p.store, execution).0, execution.localOrderId),
                     execution, h).2 {
        BookedExecutionKeepsExact(p, execution, h, initiallyHeld);
      } else {
        FailedExecutionKeepsExact(p, execution, h, initiallyHeld);
      }
    }
  }

  lemma EngineKeepsSymbol(e: Engine, s: L.Ledger, lifecycle: Option<LC.Record>, execution: ExecutionEvent, h: HashOrder)
    ensures OnExecution(e, s, lifecycle, execution, h).0.symbol == e.symbol
    ensures OnExecution(e, s, lifecycle, execution, h).2 ==> FillOf(e, execution).Some?
  {
    hide FillOf, BookOnLedger;
  }

  lemma LedgerStepKeepsExact(p: Pipeline, op: C.Operation, h: HashOrder, initiallyHeld: int)
    requires Exact(p, initiallyHeld) && Admissible(p.engine.symbol, LedgerOperation(op, h))
    ensures Exact(p.(ledger := C.Step(p.ledger, op, h)), initiallyHeld)
  {
    LedgerStepKeepsHeld(p.ledger, op, h, p.engine.symbol);
    hide C.Step, C.Sound, LI.Sound, Held, Worth, UnitsWorth, Signed;
    var q := p.(ledger := C.Step(p.ledger, op, h));
    forall id | id in p.booked ensures OrderBooked(q, id, p.booked[id]) {
      assert OrderBooked(p, id, p.booked[id]);
    }
  }

  // ---------------------------------------------------------------------------
  // Every run
  // ---------------------------------------------------------------------------

  function Start(symbol: string, ledger: L.Ledger): Pipeline {
    Pipeline(LC.EMPTY_STORE, FreshEngine(symbol), ledger, map[], {})
  }

  lemma StartIsExact(symbol: string, ledger: L.Ledger)
    requires symbol != "" && C.Sound(ledger)
    ensures Exact(Start(symbol, ledger), Held(ledger, symbol))
  {
    LI.RunKeepsSound([]);
    assert Total(Start(symbol, ledger).booked, Signed) == 0;
  }

  lemma {:induction false} RunKeepsExact(symbol: string, ledger: L.Ledger, events: seq<PipelineEvent>)
    requires symbol != "" && C.Sound(ledger)
    requires forall e :: e in events ==> Admissible(symbol, e)
    ensures Exact(Run(Start(symbol, ledger), events), Held(ledger, symbol))
    ensures Run(Start(symbol, ledger), events).engine.symbol == symbol
  {
    hide Exact, Step, Admissible;
    if events == [] {
      StartIsExact(symbol, ledger);
    } else {
      var front, last := events[..|events| - 1], events[|events| - 1];
      assert last in events && forall e :: e in front ==> e in events;
      RunKeepsExact(symbol, ledger, front);
      StepKeepsExact(Run(Start(symbol, ledger), front), last, Held(ledger, symbol));
    }
  }

  /**
   Exactly-once booking over every run. For each order the ledger was given no more than the
   order's recorded cumulative fill, and exactly that much if the order's latest accepted execution
   was booked; and the position is its initial size plus everything booked for buys less everything
   booked for sells.
   */
  lemma FillsAreBookedExactlyOnce(symbol: string, ledger: L.Ledger, events: seq<PipelineEvent>)
    requires symbol != "" && C.Sound(ledger)
    requires forall e :: e in events ==> Admissible(symbol, e)
    ensures var p := Run(Start(symbol, ledger), events);
            && (forall id :: id in p.booked ==>
                  && id in p.store.records
                  && p.store.records[id].filledQuantity.scale <= MAX_SCALE
                  && 0 < UnitsWorth(p.booked[id].quantity) <= Worth(p.store.records[id].filledQuantity)
                  && p.booked[id].side == p.store.records[id].request.side
                  && (id in p.clean ==>
                        UnitsWorth(p.booked[id].quantity) == Worth(p.store.records[id].filledQuantity)))
            && p.clean <= p.booked.Keys
            && Held(p.ledger, symbol) == Held(ledger, symbol) + Total(p.booked, Signed)
  {
    RunKeepsExact(symbol, ledger, events);
    ExactMeans(Run(Start(symbol, ledger), events), Held(ledger, symbol));
  }

  lemma ExactMeans(p: Pipeline, initiallyHeld: int)
    requires Exact(p, initiallyHeld)
    ensures forall id :: id in p.booked ==>
              && id in p.store.records
              && p.store.records[id].filledQuantity.scale <= MAX_SCALE
              && 0 < UnitsWorth(p.booked[id].quantity) <= Worth(p.store.records[id].filledQuantity)
              && p.booked[id].side == p.store.records[id].request.side
              && (id in p.clean ==>
                    UnitsWorth(p.booked[id].quantity) == Worth(p.store.records[id].filledQuantity))
    ensures p.clean <= p.booked.Keys
    ensures Held(p.ledger, p.engine.symbol) == initiallyHeld + Total(p.booked, Signed)
  {
    hide LI.Sound, C.Sound, Worth;
    forall id | id in p.booked
      ensures OrderBooked(p, id, p.booked[id]) && 0 < UnitsWorth(p.booked[id].quantity)
    {
      PositiveWorth(p.booked[id].quantity);
    }
  }

  lemma PositiveWorth(quantity: int)
    requires quantity > 0
    ensures UnitsWorth(quantity) > 0
  {
  }

  /** When the engine books an execution, what is booked for its order becomes exactly the reported fill. */
  lemma BookedExecutionCatchesUp(symbol: string, ledger: L.Ledger, events: seq<PipelineEvent>,
                                 execution: ExecutionEvent, h: HashOrder)
    requires symbol != "" && C.Sound(ledger)
    requires forall e :: e in events ==> Admissible(symbol, e)
    requires var p := Run(Start(symbol, ledger), events);
             && LC.ApplyExecution(p.store, execution).1 == LC.Applied
             && OnExecution(p.engine, p.ledger, Find(LC.ApplyExecution(p.store, execution).0, execution.localOrderId),
                            execution, h).2
    ensures var id, q := execution.localOrderId, HandleExecution(Run(Start(symbol, ledger), events), execution, h).0;
            && id in q.clean && id in q.booked
            && execution.cumulativeFilledQuantity.scale <= MAX_SCALE
            && UnitsWorth(q.booked[id].quantity) == Worth(execution.cumulativeFilledQuantity)
  {
    hide Exact, LC.ApplyExecution, HandleExecution, OnExecution;
    var p := Run(Start(symbol, ledger), events);
    RunKeepsExact(symbol, ledger, events);
    BookedExecutionKeepsExact(p, execution, h, Held(ledger, symbol));
    ExactMeans(HandleExecution(p, execution, h).0, Held(ledger, symbol));
    RecordedFill(p, execution, h, Held(ledger, symbol));
  }

  lemma RecordedFill(p: Pipeline, execution: ExecutionEvent, h: HashOrder, initiallyHeld: int)
    requires Exact(p, initiallyHeld) && LC.ApplyExecution(p.store, execution).1 == LC.Applied
    ensures var id, q := execution.localOrderId, HandleExecution(p, execution, h).0;
            && id in q.store.records
            && q.store.records[id].filledQuantity == execution.cumulativeFilledQuantity
  {
    hide LC.ApplyExecution, OnExecution, LI.Sound, C.Sound, FillOf;
    AppliedExecution(p.store, execution);
    EngineKeepsSymbol(p.engine, p.ledger, Find(LC.ApplyExecution(p.store, execution).0, execution.localOrderId),
                      execution, h);
  }
}
