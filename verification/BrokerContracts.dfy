/** Broker-neutral values and events exchanged between the gateway, its adapter and the engine. */
module BrokerContracts {
  import opened Wrappers
  import opened MachineWords

  const MAX_SCALE := 12

  datatype Decimal64 = Decimal64(units: i64, scale: byte) {
    predicate IsPositive() {
      units > 0
    }

    predicate IsZero() {
      units == 0
    }
  }

  datatype OrderSide = Buy | Sell

  datatype BrokerOrderType = Market | Limit | Stop | UnknownType

  datatype OrderLifecycleState =
    | Created
    | RiskChecked
    | Submitted
    | Accepted
    | PartiallyFilled
    | Filled
    | CancelRequested
    | Canceled
    | Expired
    | Rejected
    | Timeout
    | Unknown
    | Reconciled

  datatype FailureCategory = NoFailure | Validation | RejectedByBroker | Transport | OtherFailure

  datatype CancelDisposition =
    | CancelAccepted
    | CancelRejected
    | AlreadyFilled
    | AlreadyCanceled
    | CancelUnknown

  /**
   The text that identifies an event. Texts chosen by callers are `Named`; the other forms are the
   texts the gateway and the adapter compose from an order id, assumed different from callers' texts.
   */
  datatype EventKey =
    | Named(text: string)
    | RiskCheckKey(id: u64)
    | SubmitKey(id: u64)
    | AckKey(id: u64)
    | FillKey(id: u64)
    | CancelResultKey(id: u64)
  {
    predicate IsEmpty() {
      this == Named("")
    }
  }

  datatype OrderRequest = OrderRequest(
    localOrderId: u64,
    canonicalSymbol: string,
    side: OrderSide,
    orderType: BrokerOrderType,
    quantity: Decimal64,
    limitPrice: Option<Decimal64>,
    stopPrice: Option<Decimal64>,
    referencePrice: Option<Decimal64>,
    sourceId: string,
    timestampNs: u64,
    sequence: u64,
    idempotencyKey: EventKey)

  datatype NormalizedOrder = NormalizedOrder(
    request: OrderRequest,
    normalizedQuantity: Decimal64,
    normalizedLimitPrice: Option<Decimal64>,
    normalizedStopPrice: Option<Decimal64>,
    normalizedReferencePrice: Option<Decimal64>)

  datatype OrderAcknowledgement = OrderAcknowledgement(
    localOrderId: u64,
    externalOrderId: string,
    accepted: bool,
    failure: FailureCategory,
    reason: string,
    timestampNs: u64,
    sequence: u64,
    eventKey: EventKey)

  datatype ExecutionEvent = ExecutionEvent(
    localOrderId: u64,
    externalOrderId: string,
    cumulativeFilledQuantity: Decimal64,
    remainingQuantity: Decimal64,
    fillPrice: Decimal64,
    fee: Decimal64,
    timestampNs: u64,
    sequence: u64,
    eventKey: EventKey)

  datatype CancelRequest = CancelRequest(
    localOrderId: u64,
    timestampNs: u64,
    sequence: u64,
    idempotencyKey: EventKey)

  datatype CancelResult = CancelResult(
    localOrderId: u64,
    disposition: CancelDisposition,
    failure: FailureCategory,
    reason: string,
    timestampNs: u64,
    sequence: u64,
    eventKey: EventKey)
}
