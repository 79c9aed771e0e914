/**
 What the simulated broker answers to a submission, from the order and the adapter's settings: when
 it accepts, how much it fills first, at which price and for which fee.
 */
module AdapterFills {
  import opened Wrappers
  import opened MachineWords
  import opened FinancialMath
  import opened BrokerContracts
  import opened ExecutionBooking
  import opened BrokerGatewayModel
  import opened BookingEffects

  /** The submission is lost or refused whatever the order says. */
  predicate MeetsFault(a: Adapter, submitNumber: nat) {
    || a.injectedError.Some?
    || IsDropped(a, submitNumber)
  }

  predicate IsDropped(a: Adapter, submitNumber: nat) {
    a.faults.enabled && a.faults.dropEveryN > 0 && submitNumber % a.faults.dropEveryN == 0
  }

  /** The share cut to whole units when that is more than nothing and less than all, and otherwise all. */
  ghost predicate IsCut(share: real, units: int, filled: int) {
    if 1.0 <= share < units as real then filled as real <= share < (filled + 1) as real else filled == units
  }

  /** The first fill: the ratio's share cut to whole units when that is a proper part, and otherwise everything. */
  ghost predicate IsFirstFill(units: int, ratio: Option<real>, filled: int) {
    match ratio
    case None => filled == units
    case Some(r) => IsCut(units as real * r, units, filled)
  }

  lemma FloorWithin(x: real, n: int)
    ensures x.Floor < n <==> x < n as real
  {
    assert x.Floor as real <= x < x.Floor as real + 1.0;
    if x.Floor < n {
      assert (x.Floor + 1) as real <= n as real;
    }
  }

  lemma FloorIs(x: real, n: int)
    ensures n == x.Floor <==> n as real <= x < (n + 1) as real
  {
    assert x.Floor as real <= x < x.Floor as real + 1.0;
  }

  lemma FloorIsCut(share: real, units: int, filled: int)
    ensures filled == (if 0 < share.Floor < units then share.Floor else units) <==> IsCut(share, units, filled)
  {
    FloorWithin(share, units);
    FloorWithin(share, 1);
    FloorIs(share, filled);
  }

  lemma FilledUnitsIff(units: int, ratio: Option<real>, filled: int)
    ensures filled == FilledUnits(units, ratio) <==> IsFirstFill(units, ratio, filled)
  {
    match ratio
    case None =>
    case Some(r) => FloorIsCut(units as real * r, units, filled);
  }

  /** The price the order names: its limit, or else its stop, or else its reference. */
  predicate Names(order: NormalizedOrder, price: Decimal64) {
    if order.normalizedLimitPrice != None then order.normalizedLimitPrice == Some(price)
    else if order.normalizedStopPrice != None then order.normalizedStopPrice == Some(price)
    else if order.normalizedReferencePrice != None then order.normalizedReferencePrice == Some(price)
    else price == Decimal64(0, 0)
  }

  datatype Costs = Costs(named: Decimal64, market: Price, filled: i64, quantity: Quantity, price: Price, value: Money,
                         fee: Money)

  /** The first fill with its price moved against the order by the slippage rate and its fee. */
  ghost predicate CostsOf(a: Adapter, order: NormalizedOrder, c: Costs) {
    && IsFirstFill(order.normalizedQuantity.units, a.partialFillRatio, c.filled)
    && Names(order, c.named) && InUnits(c.named, c.market) && c.market > 0
    && InUnits(Decimal64(c.filled, order.normalizedQuantity.scale), c.quantity) && c.quantity > 0
    && 0 <= a.slippageRate < 100_000_000 && c.price > 0
    && IsNearest(c.market * (100_000_000 + (if order.request.side == Buy then a.slippageRate else 0 - a.slippageRate)),
                 100_000_000, c.price)
    && IsNearest(c.price * c.quantity, 100_000_000, c.value)
    && IsNearest(c.value * a.feeRate, 100_000_000, c.fee)
  }

  lemma FillCostsHaveCosts(a: Adapter, order: NormalizedOrder, filled: i64) returns (c: Costs)
    requires filled == FilledUnits(order.normalizedQuantity.units, a.partialFillRatio)
    requires FillCosts(a, order, Decimal64(filled, order.normalizedQuantity.scale)).Some?
    ensures CostsOf(a, order, c)
  {
    var quantity := Decimal64(filled, order.normalizedQuantity.scale);
    var market := ToUnits(RequestedPrice(order)).value;
    var units := ToUnits(quantity).value;
    var (price, fee) := FillCosts(a, order, quantity).value;
    var value := Notional(price, units).value;
    hide InUnits, ToUnits, Notional, Fee, ApplySlippage, IsNearest;
    ToUnitsIff(RequestedPrice(order), market);
    ToUnitsIff(quantity, units);
    ApplySlippageIff(market, a.slippageRate, order.request.side == Buy, price);
    NotionalIff(price, units, value);
    FeeIff(value, a.feeRate, fee);
    FilledUnitsIff(order.normalizedQuantity.units, a.partialFillRatio, filled);
    c := Costs(RequestedPrice(order), market, filled, units, price, value, fee);
  }

  lemma CostsAreFillCosts(a: Adapter, order: NormalizedOrder, c: Costs)
    requires CostsOf(a, order, c)
    ensures c.filled == FilledUnits(order.normalizedQuantity.units, a.partialFillRatio)
    ensures FillCosts(a, order, Decimal64(c.filled, order.normalizedQuantity.scale)) == Some((c.price, c.fee))
  {
    hide InUnits, ToUnits, Notional, Fee, ApplySlippage, IsNearest;
    ToUnitsIff(c.named, c.market);
    ToUnitsIff(Decimal64(c.filled, order.normalizedQuantity.scale), c.quantity);
    ApplySlippageIff(c.market, a.slippageRate, order.request.side == Buy, c.price);
    NotionalIff(c.price, c.quantity, c.value);
    FeeIff(c.value, a.feeRate, c.fee);
    FilledUnitsIff(order.normalizedQuantity.units, a.partialFillRatio, c.filled);
  }

  /** A buy fills at or above the price it names and a sale at or below it. */
  lemma FillsAreAdverse(a: Adapter, order: NormalizedOrder, c: Costs)
    requires CostsOf(a, order, c)
    ensures order.request.side == Buy ==> c.price >= c.market
    ensures order.request.side == Sell ==> c.price <= c.market
  {
    hide InUnits, IsNearest;
    ApplySlippageIff(c.market, a.slippageRate, order.request.side == Buy, c.price);
    hide ApplySlippage;
    SlippageIsAdverse(c.market, a.slippageRate, order.request.side == Buy);
  }

  /** The number a text of decimal digits denotes. */
  function Denoted(text: string): int {
    if text == "" then 0 else Denoted(text[..|text| - 1]) * 10 + text[|text| - 1] as int - '0' as int
  }

  /** The digits written for a number are decimal digits and denote it. */
  lemma {:induction false} DigitsDenote(n: nat)
    ensures Denoted(Digits(n)) == n && Digits(n) != "" && forall c :: c in Digits(n) ==> '0' <= c <= '9'
  {
    if n < 10 {
      assert Digits(n)[..0] == "";
    } else {
      DigitsDenote(n / 10);
      assert Digits(n)[..|Digits(n)| - 1] == Digits(n / 10);
    }
  }

  /** The broker's name for the order: a fixed prefix and the decimal digits of the order's identity. */
  ghost predicate IsPaperId(text: string, id: u64) {
    && |text| > 6 && text[..6] == "paper-" && Denoted(text[6..]) == id
    && forall c :: c in text[6..] ==> '0' <= c <= '9'
  }

  /** The execution that reports a first fill. */
  function ExecutionOf(order: NormalizedOrder, externalOrderId: string, c: Costs): ExecutionEvent
    requires FitsI64(order.normalizedQuantity.units - c.filled)
  {
    var request, scale := order.request, order.normalizedQuantity.scale;
    ExecutionEvent(request.localOrderId, externalOrderId, Decimal64(c.filled, scale),
                   Decimal64(order.normalizedQuantity.units - c.filled, scale), Decimal64(c.price, 8),
                   Decimal64(c.fee, 8), request.timestampNs, (request.sequence + 4) % 0x1_0000_0000_0000_0000,
                   FillKey(request.localOrderId))
  }

  lemma PaperId(id: u64)
    requires Denoted(Digits(id)) == id && Digits(id) != "" && forall c :: c in Digits(id) ==> '0' <= c <= '9'
    ensures IsPaperId("paper-" + Digits(id), id)
  {
    assert ("paper-" + Digits(id))[6..] == Digits(id);
  }

  /** The answer to an order that met no fault: filled by the costs it has, or refused when it has none. */
  lemma FillAnswerIs(a: Adapter, order: NormalizedOrder)
    ensures var answer := FillAnswer(a, order);
            && answer.ack.localOrderId == order.request.localOrderId
            && answer.ack.eventKey == AckKey(order.request.localOrderId)
            && answer.ack.timestampNs == order.request.timestampNs
            && answer.ack.sequence == (order.request.sequence + 3) % 0x1_0000_0000_0000_0000
            && (answer.ack.accepted <==> exists c :: CostsOf(a, order, c))
            && (answer.ack.accepted ==>
                  && answer.ack.failure == NoFailure && answer.ack.reason == ""
                  && answer.ack.externalOrderId == "paper-" + Digits(order.request.localOrderId)
                  && forall c | CostsOf(a, order, c) ::
                       && FitsI64(order.normalizedQuantity.units - c.filled)
                       && answer.execution == Some(ExecutionOf(order, answer.ack.externalOrderId, c)))
            && (!answer.ack.accepted ==>
                  answer.execution == None && answer.ack.externalOrderId == "" && answer.ack.failure == Validation)
  {
    hide FillCosts, CostsOf, Digits;
    var units := order.normalizedQuantity.units;
    FilledFits(units, a.partialFillRatio);
    var filled: i64 := FilledUnits(units, a.partialFillRatio);
    hide FilledUnits;
    if FillCosts(a, order, Decimal64(filled, order.normalizedQuantity.scale)).Some? {
      var c := FillCostsHaveCosts(a, order, filled);
    }
    forall c | CostsOf(a, order, c)
      ensures c.filled == filled
      ensures FillCosts(a, order, Decimal64(filled, order.normalizedQuantity.scale)) == Some((c.price, c.fee))
    {
      CostsAreFillCosts(a, order, c);
    }
  }

  /**
   A submission is accepted if and only if it meets no fault and its first fill has a price, a value
   and a fee; it is then reported filled by just that much, at that price and fee. Otherwise nothing
   is filled and the refusal names the fault.
   */
  lemma SubmissionIff(a: Adapter, order: NormalizedOrder, submitNumber: nat)
    ensures var answer := AnswerTo(a, order, submitNumber);
            && answer.ack.localOrderId == order.request.localOrderId
            && answer.ack.eventKey == AckKey(order.request.localOrderId)
            && answer.ack.timestampNs == order.request.timestampNs
            && answer.ack.sequence == (order.request.sequence + 3) % 0x1_0000_0000_0000_0000
            && (answer.ack.accepted <==> !MeetsFault(a, submitNumber) && exists c :: CostsOf(a, order, c))
            && (answer.ack.accepted ==>
                  && answer.ack.failure == NoFailure && answer.ack.reason == ""
                  && IsPaperId(answer.ack.externalOrderId, order.request.localOrderId)
                  && forall c | CostsOf(a, order, c) ::
                       && FitsI64(order.normalizedQuantity.units - c.filled)
                       && answer.execution == Some(ExecutionOf(order, answer.ack.externalOrderId, c)))
            && (!answer.ack.accepted ==>
                  && answer.execution == None && answer.ack.externalOrderId == ""
                  && answer.ack.failure == (if IsDropped(a, submitNumber) then Transport
                                            else if a.injectedError.Some? then RejectedByBroker else Validation)
                  && (a.injectedError.Some? && !IsDropped(a, submitNumber) ==>
                        answer.ack.reason == a.injectedError.value))
  {
    DigitsDenote(order.request.localOrderId);
    PaperId(order.request.localOrderId);
    FillAnswerIs(a, order);
    hide FillAnswer, CostsOf, Digits, IsPaperId;
  }

  /**
   After a submission the adapter keeps the order as pending exactly when it was accepted and filled
   in part; a fault spends the injected error, and any other submission spends the fill ratio.
   */
  lemma SubmissionLeaves(a: Adapter, order: NormalizedOrder)
    ensures var n, id := a.submitCount + 1, order.request.localOrderId;
            var b, answer := AfterSubmit(a, order), AnswerTo(a, order, n);
            && b.submitCount == n && b.connected == a.connected
            && b.feeRate == a.feeRate && b.slippageRate == a.slippageRate
            && b.faultDrops == a.faultDrops + (if IsDropped(a, n) then 1 else 0)
            && b.injectedError == None
            && b.partialFillRatio == (if MeetsFault(a, n) then a.partialFillRatio else None)
            && b.pendingOrders == (if answer.ack.accepted && answer.execution.Some?
                                      && answer.execution.value.remainingQuantity.units != 0
                                   then a.pendingOrders[id := order] else a.pendingOrders)
  {
    hide FillCosts, Digits, FilledUnits;
  }
}
