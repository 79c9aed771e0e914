/**
 The binary layout of a restart snapshot: the portfolio, risk, regime and allocator sections, each
 as a writer and a reader of the same fields in the same order.
 */
module SnapshotFormat {
  import opened Wrappers
  import opened MachineWords
  import opened ByteCodec
  import opened PortfolioLedger
  import opened LedgerSnapshot

  datatype OrderType = MARKET | LIMIT | STOP_LOSS | TRAILING_STOP

  datatype OrderRecord = OrderRecord(
    symbol: string,
    orderType: OrderType,
    isBuy: bool,
    limitPrice: i64,
    trailOffset: i64,
    trailBest: i64,
    quantity: i64,
    capitalToCommit: i64,
    placedTimestamp: u64,
    orderId: u64)

  datatype PortfolioRecord = PortfolioRecord(
    cash: i64,
    unrealized: i64,
    totalEquity: i64,
    maxEquity: i64,
    currentDrawdown: Double,
    maxDrawdown: Double,
    tradeCount: i32,
    totalFees: i64,
    roundTripCount: i32,
    positions: seq<PositionSnapshot>,
    tradeLog: seq<Trade>,
    pendingOrders: seq<OrderRecord>,
    nextOrderId: u64)

  /** The return history of one symbol; the symbol itself is its key in the table. */
  datatype AssetState = AssetState(
    returnWindow: seq<Double>,
    prevPrice: Double,
    prevPriceValid: bool,
    positionValue: Double)

  /** Configuration and drawdowns. */
  datatype RiskAccount = RiskAccount(
    configuredMaxPositions: u64,
    configuredVarLimit: Double,
    configuredVarWindow: u64,
    totalDrawdown: Double,
    dailyDrawdown: Double,
    prevEquity: Double,
    prevEquityValid: bool)

  /** The return histories of the portfolio and of each symbol, and what was computed from them. */
  datatype RiskReturns = RiskReturns(
    returnWindow: seq<Double>,
    currentVaR95: Double,
    returnStdDev: Double,
    assetStates: map<string, AssetState>,
    covarianceMatrix: seq<Double>,
    assetOrder: seq<string>)

  /** Switches, the synchronised positions and the limits in force. */
  datatype RiskLimits = RiskLimits(
    multiAssetMode: bool,
    closeOnly: bool,
    lastLatencyMs: u32,
    halted: bool,
    syncedPositions: map<string, Double>,
    effectiveMaxPositions: u64,
    effectiveVarLimit: Double,
    volatilityScaled: bool)

  datatype RiskRecord = RiskRecord(account: RiskAccount, history: RiskReturns, limits: RiskLimits)

  datatype MarketRegime = TREND | RANGE | CHAOS

  datatype RegimeRecord = RegimeRecord(
    smoothTR: Double,
    smoothDMPlus: Double,
    smoothDMMinus: Double,
    adx: Double,
    adxObservations: i32,
    returnWindow: seq<Double>,
    prevClose: Double,
    prevCloseValid: bool,
    variance: Double,
    prevHigh: Double,
    prevLow: Double,
    prevHLValid: bool,
    regime: MarketRegime)

  /** The score of one strategy; the strategy is its key in the table. */
  datatype PhiState = PhiState(pnlWindow: seq<Double>, phi: Double)

  datatype ExtendedRecord = ExtendedRecord(regime: RegimeRecord, phi: map<string, PhiState>)

  datatype Payload = Payload(
    checkpoint: u64,
    portfolio: PortfolioRecord,
    risk: RiskRecord,
    extended: Option<ExtendedRecord>)

  // ---------------------------------------------------------------------------
  // Enumerations stored in one byte
  // ---------------------------------------------------------------------------

  function OrderTypeCode(t: OrderType): byte {
    match t
    case MARKET => 0
    case LIMIT => 1
    case STOP_LOSS => 2
    case TRAILING_STOP => 3
  }

  function OrderTypeOf(code: byte): Option<OrderType> {
    match code
    case 0 => Some(MARKET)
    case 1 => Some(LIMIT)
    case 2 => Some(STOP_LOSS)
    case 3 => Some(TRAILING_STOP)
    case _ => None
  }

  function GetOrderType(bytes: Bytes): Option<Parsed<OrderType>> {
    var code :- GetU8(bytes);
    var v :- OrderTypeOf(code.value);
    Some(Parsed(v, code.rest))
  }

  lemma OrderTypeAgrees()
    ensures forall v, rest :: GetOrderType(PutU8(OrderTypeCode(v), rest)) == Some(Parsed(v, rest))
    ensures forall bytes :: GetOrderType(bytes).Some? ==>
              PutU8(OrderTypeCode(GetOrderType(bytes).value.value), GetOrderType(bytes).value.rest) == bytes
  {
    forall v, rest ensures GetOrderType(PutU8(OrderTypeCode(v), rest)) == Some(Parsed(v, rest)) {
      U8ReadsBack(OrderTypeCode(v), rest);
    }
    forall bytes | GetOrderType(bytes).Some?
      ensures PutU8(OrderTypeCode(GetOrderType(bytes).value.value), GetOrderType(bytes).value.rest) == bytes
    {
      U8IsCanonical(bytes);
    }
  }

  function RegimeCode(r: MarketRegime): byte {
    match r
    case TREND => 0
    case RANGE => 1
    case CHAOS => 2
  }

  function MarketRegimeOf(code: byte): Option<MarketRegime> {
    match code
    case 0 => Some(TREND)
    case 1 => Some(RANGE)
    case 2 => Some(CHAOS)
    case _ => None
  }

  function GetMarketRegime(bytes: Bytes): Option<Parsed<MarketRegime>> {
    var code :- GetU8(bytes);
    var v :- MarketRegimeOf(code.value);
    Some(Parsed(v, code.rest))
  }

  lemma MarketRegimeAgrees()
    ensures forall v, rest :: GetMarketRegime(PutU8(RegimeCode(v), rest)) == Some(Parsed(v, rest))
    ensures forall bytes :: GetMarketRegime(bytes).Some? ==>
              PutU8(RegimeCode(GetMarketRegime(bytes).value.value), GetMarketRegime(bytes).value.rest) == bytes
  {
    forall v, rest ensures GetMarketRegime(PutU8(RegimeCode(v), rest)) == Some(Parsed(v, rest)) {
      U8ReadsBack(RegimeCode(v), rest);
    }
    forall bytes | GetMarketRegime(bytes).Some?
      ensures PutU8(RegimeCode(GetMarketRegime(bytes).value.value), GetMarketRegime(bytes).value.rest) == bytes
    {
      U8IsCanonical(bytes);
    }
  }

  // ---------------------------------------------------------------------------
  // Portfolio section
  // ---------------------------------------------------------------------------

  function PutPosition(p: PositionSnapshot, rest: Bytes): Bytes {
    PutText(p.symbol, PutI64(p.quantity, PutI64(p.entryPrice, PutBool(p.isLong, PutU64(p.entryTimestamp,
    PutI64(p.entryFee, PutI64(p.costBasis, PutI64(p.lastMark, PutText(p.strategyId, rest)))))))))
  }

  function GetPosition(bytes: Bytes): Option<Parsed<PositionSnapshot>> {
    var symbol :- GetText(bytes);
    var quantity :- GetI64(symbol.rest);
    var entryPrice :- GetI64(quantity.rest);
    var isLong :- GetBool(entryPrice.rest);
    var entryTimestamp :- GetU64(isLong.rest);
    var entryFee :- GetI64(entryTimestamp.rest);
    var costBasis :- GetI64(entryFee.rest);
    var lastMark :- GetI64(costBasis.rest);
    var strategyId :- GetText(lastMark.rest);
    Some(Parsed(PositionSnapshot(symbol.value, quantity.value, entryPrice.value, isLong.value,
                entryTimestamp.value, entryFee.value, costBasis.value, lastMark.value, strategyId.value),
                strategyId.rest))
  }

  ghost predicate FitsPosition(p: PositionSnapshot) {
    IsText(p.symbol) && IsText(p.strategyId)
  }

  lemma PositionLawful()
    ensures Lawful(PutPosition, GetPosition, FitsPosition)
  {
    hide GetText, PutText, IsText, GetI64, PutI64, GetBool, PutBool, GetU64, PutU64;
    forall v, rest | FitsPosition(v) ensures GetPosition(PutPosition(v, rest)) == Some(Parsed(v, rest)) {
      hide FieldsAreCanonical;
      FieldsAgree();
    }
    forall bytes | GetPosition(bytes).Some? ensures Canonical(PutPosition, GetPosition, FitsPosition, bytes) {
      TextIsCanonical(bytes);
      var symbol := GetText(bytes).value;
      SignedIsCanonical(symbol.rest);
      var quantity := GetI64(symbol.rest).value;
      SignedIsCanonical(quantity.rest);
      var entryPrice := GetI64(quantity.rest).value;
      BoolIsCanonical(entryPrice.rest);
      var isLong := GetBool(entryPrice.rest).value;
      U64IsCanonical(isLong.rest);
      var entryTimestamp := GetU64(isLong.rest).value;
      SignedIsCanonical(entryTimestamp.rest);
      var entryFee := GetI64(entryTimestamp.rest).value;
      SignedIsCanonical(entryFee.rest);
      var costBasis := GetI64(entryFee.rest).value;
      SignedIsCanonical(costBasis.rest);
      var lastMark := GetI64(costBasis.rest).value;
      TextIsCanonical(lastMark.rest);
    }
  }

  function PutPositions(items: seq<PositionSnapshot>, rest: Bytes): Bytes {
    PutList(items, PutPosition, rest)
  }

  function GetPositions(bytes: Bytes): Option<Parsed<seq<PositionSnapshot>>> {
    GetList(GetPosition, bytes)
  }

  ghost predicate FitsPositions(items: seq<PositionSnapshot>) {
    FitsList(items, FitsPosition)
  }

  lemma PositionsAgree()
    ensures forall items, rest | FitsPositions(items) ::
              GetPositions(PutPositions(items, rest)) == Some(Parsed(items, rest))
    ensures forall bytes | GetPositions(bytes).Some? ::
              var p := GetPositions(bytes).value; FitsPositions(p.value) && PutPositions(p.value, p.rest) == bytes
  {
    PositionLawful();
    hide GetList, PutList, FitsList, Lawful, GetPosition, PutPosition, FitsPosition;
    forall items, rest | FitsPositions(items)
      ensures GetPositions(PutPositions(items, rest)) == Some(Parsed(items, rest))
    {
      ListReadsBack(items, PutPosition, GetPosition, FitsPosition, rest);
    }
    forall bytes | GetPositions(bytes).Some?
      ensures var p := GetPositions(bytes).value; FitsPositions(p.value) && PutPositions(p.value, p.rest) == bytes
    {
      ListIsCanonical(PutPosition, GetPosition, FitsPosition, bytes);
    }
  }

  function PutTrade(t: Trade, rest: Bytes): Bytes {
    PutText(t.symbol, PutU64(t.openTimestamp, PutU64(t.closeTimestamp, PutI64(t.entryPrice,
    PutI64(t.exitPrice, PutI64(t.quantity, PutI64(t.totalFees, PutI64(t.realizedPnL, PutI64(t.grossPnL,
    PutText(t.strategyId, rest))))))))))
  }

  function GetTrade(bytes: Bytes): Option<Parsed<Trade>> {
    var symbol :- GetText(bytes);
    var openTimestamp :- GetU64(symbol.rest);
    var closeTimestamp :- GetU64(openTimestamp.rest);
    var entryPrice :- GetI64(closeTimestamp.rest);
    var exitPrice :- GetI64(entryPrice.rest);
    var quantity :- GetI64(exitPrice.rest);
    var totalFees :- GetI64(quantity.rest);
    var realizedPnL :- GetI64(totalFees.rest);
    var grossPnL :- GetI64(realizedPnL.rest);
    var strategyId :- GetText(grossPnL.rest);
    Some(Parsed(Trade(symbol.value, openTimestamp.value, closeTimestamp.value, entryPrice.value,
                exitPrice.value, quantity.value, totalFees.value, realizedPnL.value, grossPnL.value,
                strategyId.value), strategyId.rest))
  }

  ghost predicate FitsTrade(t: Trade) {
    IsText(t.symbol) && IsText(t.strategyId)
  }

  lemma TradeLawful()
    ensures Lawful(PutTrade, GetTrade, FitsTrade)
  {
    hide GetText, PutText, IsText, GetU64, PutU64, GetI64, PutI64;
    forall v, rest | FitsTrade(v) ensures GetTrade(PutTrade(v, rest)) == Some(Parsed(v, rest)) {
      TextReadsBack(v.strategyId, rest);
      var strategyId := PutText(v.strategyId, rest);
      SignedReadsBack(v.grossPnL, strategyId);
      var grossPnL := PutI64(v.grossPnL, strategyId);
      SignedReadsBack(v.realizedPnL, grossPnL);
      var realizedPnL := PutI64(v.realizedPnL, grossPnL);
      SignedReadsBack(v.totalFees, realizedPnL);
      var totalFees := PutI64(v.totalFees, realizedPnL);
      SignedReadsBack(v.quantity, totalFees);
      var quantity := PutI64(v.quantity, totalFees);
      SignedReadsBack(v.exitPrice, quantity);
      var exitPrice := PutI64(v.exitPrice, quantity);
      SignedReadsBack(v.entryPrice, exitPrice);
      var entryPrice := PutI64(v.entryPrice, exitPrice);
      U64ReadsBack(v.closeTimestamp, entryPrice);
      var closeTimestamp := PutU64(v.closeTimestamp, entryPrice);
      U64ReadsBack(v.openTimestamp, closeTimestamp);
      var openTimestamp := PutU64(v.openTimestamp, closeTimestamp);
      TextReadsBack(v.symbol, openTimestamp);
    }
    forall bytes | GetTrade(bytes).Some? ensures Canonical(PutTrade, GetTrade, FitsTrade, bytes) {
      var read := GetTrade(bytes).value;
      assert FitsTrade(read.value) && PutTrade(read.value, read.rest) == bytes by {
        TextIsCanonical(bytes);
        var symbol := GetText(bytes).value;
        U64IsCanonical(symbol.rest);
        var openTimestamp := GetU64(symbol.rest).value;
        U64IsCanonical(openTimestamp.rest);
        var closeTimestamp := GetU64(openTimestamp.rest).value;
        SignedIsCanonical(closeTimestamp.rest);
        var entryPrice := GetI64(closeTimestamp.rest).value;
        SignedIsCanonical(entryPrice.rest);
        var exitPrice := GetI64(entryPrice.rest).value;
        SignedIsCanonical(exitPrice.rest);
        var quantity := GetI64(exitPrice.rest).value;
        SignedIsCanonical(quantity.rest);
        var totalFees := GetI64(quantity.rest).value;
        SignedIsCanonical(totalFees.rest);
        var realizedPnL := GetI64(totalFees.rest).value;
        SignedIsCanonical(realizedPnL.rest);
        var grossPnL := GetI64(realizedPnL.rest).value;
        TextIsCanonical(grossPnL.rest);
      }
    }
  }

  function PutTrades(items: seq<Trade>, rest: Bytes): Bytes {
    PutList(items, PutTrade, rest)
  }

  function GetTrades(bytes: Bytes): Option<Parsed<seq<Trade>>> {
    GetList(GetTrade, bytes)
  }

  ghost predicate FitsTrades(items: seq<Trade>) {
    FitsList(items, FitsTrade)
  }

  lemma TradesAgree()
    ensures forall items, rest | FitsTrades(items) :: GetTrades(PutTrades(items, rest)) == Some(Parsed(items, rest))
    ensures forall bytes | GetTrades(bytes).Some? ::
              var p := GetTrades(bytes).value; FitsTrades(p.value) && PutTrades(p.value, p.rest) == bytes
  {
    TradeLawful();
    hide GetList, PutList, FitsList, Lawful, GetTrade, PutTrade, FitsTrade;
    forall items, rest | FitsTrades(items)
      ensures GetTrades(PutTrades(items, rest)) == Some(Parsed(items, rest))
    {
      ListReadsBack(items, PutTrade, GetTrade, FitsTrade, rest);
    }
    forall bytes | GetTrades(bytes).Some?
      ensures var p := GetTrades(bytes).value; FitsTrades(p.value) && PutTrades(p.value, p.rest) == bytes
    {
      ListIsCanonical(PutTrade, GetTrade, FitsTrade, bytes);
    }
  }

  function PutOrder(o: OrderRecord, rest: Bytes): Bytes {
    PutText(o.symbol, PutU8(OrderTypeCode(o.orderType), PutBool(o.isBuy, PutI64(o.limitPrice,
    PutI64(o.trailOffset, PutI64(o.trailBest, PutI64(o.quantity, PutI64(o.capitalToCommit,
    PutU64(o.placedTimestamp, PutU64(o.orderId, rest))))))))))
  }

  function GetOrder(bytes: Bytes): Option<Parsed<OrderRecord>> {
    var symbol :- GetText(bytes);
    var orderType :- GetOrderType(symbol.rest);
    var isBuy :- GetBool(orderType.rest);
    var limitPrice :- GetI64(isBuy.rest);
    var trailOffset :- GetI64(limitPrice.rest);
    var trailBest :- GetI64(trailOffset.rest);
    var quantity :- GetI64(trailBest.rest);
    var capitalToCommit :- GetI64(quantity.rest);
    var placedTimestamp :- GetU64(capitalToCommit.rest);
    var orderId :- GetU64(placedTimestamp.rest);
    Some(Parsed(OrderRecord(symbol.value, orderType.value, isBuy.value, limitPrice.value,
                trailOffset.value, trailBest.value, quantity.value, capitalToCommit.value,
                placedTimestamp.value, orderId.value), orderId.rest))
  }

  ghost predicate FitsOrder(o: OrderRecord) {
    IsText(o.symbol)
  }

  lemma OrderLawful()
    ensures Lawful(PutOrder, GetOrder, FitsOrder)
  {
    hide GetText, PutText, IsText, GetOrderType, OrderTypeCode, GetBool, PutBool, GetI64, PutI64, GetU64;
    hide PutU64, PutU8;
    forall v, rest | FitsOrder(v) ensures GetOrder(PutOrder(v, rest)) == Some(Parsed(v, rest)) {
      U64ReadsBack(v.orderId, rest);
      var orderId := PutU64(v.orderId, rest);
      U64ReadsBack(v.placedTimestamp, orderId);
      var placedTimestamp := PutU64(v.placedTimestamp, orderId);
      SignedReadsBack(v.capitalToCommit, placedTimestamp);
      var capitalToCommit := PutI64(v.capitalToCommit, placedTimestamp);
      SignedReadsBack(v.quantity, capitalToCommit);
      var quantity := PutI64(v.quantity, capitalToCommit);
      SignedReadsBack(v.trailBest, quantity);
      var trailBest := PutI64(v.trailBest, quantity);
      SignedReadsBack(v.trailOffset, trailBest);
      var trailOffset := PutI64(v.trailOffset, trailBest);
      SignedReadsBack(v.limitPrice, trailOffset);
      var limitPrice := PutI64(v.limitPrice, trailOffset);
      BoolReadsBack(v.isBuy, limitPrice);
      var isBuy := PutBool(v.isBuy, limitPrice);
      var orderType := PutU8(OrderTypeCode(v.orderType), isBuy);
      assert GetOrderType(orderType) == Some(Parsed(v.orderType, isBuy)) by {
        OrderTypeAgrees();
      }
      TextReadsBack(v.symbol, orderType);
    }
    forall bytes | GetOrder(bytes).Some? ensures Canonical(PutOrder, GetOrder, FitsOrder, bytes) {
      var read := GetOrder(bytes).value;
      assert FitsOrder(read.value) && PutOrder(read.value, read.rest) == bytes by {
        TextIsCanonical(bytes);
        var symbol := GetText(bytes).value;
        var orderType := GetOrderType(symbol.rest).value;
        assert PutU8(OrderTypeCode(orderType.value), orderType.rest) == symbol.rest by {
          OrderTypeAgrees();
        }
        BoolIsCanonical(orderType.rest);
        var isBuy := GetBool(orderType.rest).value;
        SignedIsCanonical(isBuy.rest);
        var limitPrice := GetI64(isBuy.rest).value;
        SignedIsCanonical(limitPrice.rest);
        var trailOffset := GetI64(limitPrice.rest).value;
        SignedIsCanonical(trailOffset.rest);
        var trailBest := GetI64(trailOffset.rest).value;
        SignedIsCanonical(trailBest.rest);
        var quantity := GetI64(trailBest.rest).value;
        SignedIsCanonical(quantity.rest);
        var capitalToCommit := GetI64(quantity.rest).value;
        U64IsCanonical(capitalToCommit.rest);
        var placedTimestamp := GetU64(capitalToCommit.rest).value;
        U64IsCanonical(placedTimestamp.rest);
      }
    }
  }

  function PutOrders(items: seq<OrderRecord>, rest: Bytes): Bytes {
    PutList(items, PutOrder, rest)
  }

  function GetOrders(bytes: Bytes): Option<Parsed<seq<OrderRecord>>> {
    GetList(GetOrder, bytes)
  }

  ghost predicate FitsOrders(items: seq<OrderRecord>) {
    FitsList(items, FitsOrder)
  }

  lemma OrdersAgree()
    ensures forall items, rest | FitsOrders(items) :: GetOrders(PutOrders(items, rest)) == Some(Parsed(items, rest))
    ensures forall bytes | GetOrders(bytes).Some? ::
              var p := GetOrders(bytes).value; FitsOrders(p.value) && PutOrders(p.value, p.rest) == bytes
  {
    OrderLawful();
    hide GetList, PutList, FitsList, Lawful, GetOrder, PutOrder, FitsOrder;
    forall items, rest | FitsOrders(items)
      ensures GetOrders(PutOrders(items, rest)) == Some(Parsed(items, rest))
    {
      ListReadsBack(items, PutOrder, GetOrder, FitsOrder, rest);
    }
    forall bytes | GetOrders(bytes).Some?
      ensures var p := GetOrders(bytes).value; FitsOrders(p.value) && PutOrders(p.value, p.rest) == bytes
    {
      ListIsCanonical(PutOrder, GetOrder, FitsOrder, bytes);
    }
  }

  function PutPortfolio(s: PortfolioRecord, rest: Bytes): Bytes {
    PutI64(s.cash, PutI64(s.unrealized, PutI64(s.totalEquity, PutI64(s.maxEquity,
    PutNumber(s.currentDrawdown, PutNumber(s.maxDrawdown, PutI32(s.tradeCount, PutI64(s.totalFees,
    PutI32(s.roundTripCount, PutPositions(s.positions, PutTrades(s.tradeLog, PutOrders(s.pendingOrders,
    PutU64(s.nextOrderId, rest)))))))))))))
  }

  function GetPortfolio(bytes: Bytes): Option<Parsed<PortfolioRecord>> {
    var cash :- GetI64(bytes);
    var unrealized :- GetI64(cash.rest);
    var totalEquity :- GetI64(unrealized.rest);
    var maxEquity :- GetI64(totalEquity.rest);
    var currentDrawdown :- GetNumber(maxEquity.rest);
    var maxDrawdown :- GetNumber(currentDrawdown.rest);
    var tradeCount :- GetI32(maxDrawdown.rest);
    var totalFees :- GetI64(tradeCount.rest);
    var roundTripCount :- GetI32(totalFees.rest);
    var positions :- GetPositions(roundTripCount.rest);
    var tradeLog :- GetTrades(positions.rest);
    var pendingOrders :- GetOrders(tradeLog.rest);
    var nextOrderId :- GetU64(pendingOrders.rest);
    Some(Parsed(PortfolioRecord(cash.value, unrealized.value, totalEquity.value, maxEquity.value,
                currentDrawdown.value, maxDrawdown.value, tradeCount.value, totalFees.value,
                roundTripCount.value, positions.value, tradeLog.value, pendingOrders.value,
                nextOrderId.value), nextOrderId.rest))
  }

  ghost predicate FitsPortfolio(s: PortfolioRecord) {
    IsFinite(s.currentDrawdown) && IsFinite(s.maxDrawdown) && FitsPositions(s.positions) &&
    FitsTrades(s.tradeLog) && FitsOrders(s.pendingOrders)
  }

  lemma PortfolioLawful()
    ensures Lawful(PutPortfolio, GetPortfolio, FitsPortfolio)
  {
    hide GetI64, PutI64, GetNumber, PutNumber, IsFinite, GetI32, PutI32, GetPositions, PutPositions;
    hide FitsPositions, GetTrades, PutTrades, FitsTrades, GetOrders, PutOrders, FitsOrders, GetU64, PutU64;
    forall v, rest | FitsPortfolio(v) ensures GetPortfolio(PutPortfolio(v, rest)) == Some(Parsed(v, rest)) {
      U64ReadsBack(v.nextOrderId, rest);
      var nextOrderId := PutU64(v.nextOrderId, rest);
      var pendingOrders := PutOrders(v.pendingOrders, nextOrderId);
      assert GetOrders(pendingOrders) == Some(Parsed(v.pendingOrders, nextOrderId)) by {
        OrdersAgree();
      }
      var tradeLog := PutTrades(v.tradeLog, pendingOrders);
      assert GetTrades(tradeLog) == Some(Parsed(v.tradeLog, pendingOrders)) by {
        TradesAgree();
      }
      var positions := PutPositions(v.positions, tradeLog);
      assert GetPositions(positions) == Some(Parsed(v.positions, tradeLog)) by {
        PositionsAgree();
      }
      Signed32ReadsBack(v.roundTripCount, positions);
      var roundTripCount := PutI32(v.roundTripCount, positions);
      SignedReadsBack(v.totalFees, roundTripCount);
      var totalFees := PutI64(v.totalFees, roundTripCount);
      Signed32ReadsBack(v.tradeCount, totalFees);
      var tradeCount := PutI32(v.tradeCount, totalFees);
      NumberReadsBack(v.maxDrawdown, tradeCount);
      var maxDrawdown := PutNumber(v.maxDrawdown, tradeCount);
      NumberReadsBack(v.currentDrawdown, maxDrawdown);
      var currentDrawdown := PutNumber(v.currentDrawdown, maxDrawdown);
      SignedReadsBack(v.maxEquity, currentDrawdown);
      var maxEquity := PutI64(v.maxEquity, currentDrawdown);
      SignedReadsBack(v.totalEquity, maxEquity);
      var totalEquity := PutI64(v.totalEquity, maxEquity);
      SignedReadsBack(v.unrealized, totalEquity);
      var unrealized := PutI64(v.unrealized, totalEquity);
      SignedReadsBack(v.cash, unrealized);
    }
    forall bytes | GetPortfolio(bytes).Some? ensures Canonical(PutPortfolio, GetPortfolio, FitsPortfolio, bytes) {
      var read := GetPortfolio(bytes).value;
      assert FitsPortfolio(read.value) && PutPortfolio(read.value, read.rest) == bytes by {
        SignedIsCanonical(bytes);
        var cash := GetI64(bytes).value;
        SignedIsCanonical(cash.rest);
        var unrealized := GetI64(cash.rest).value;
        SignedIsCanonical(unrealized.rest);
        var totalEquity := GetI64(unrealized.rest).value;
        SignedIsCanonical(totalEquity.rest);
        var maxEquity := GetI64(totalEquity.rest).value;
        NumberIsCanonical(maxEquity.rest);
        var currentDrawdown := GetNumber(maxEquity.rest).value;
        NumberIsCanonical(currentDrawdown.rest);
        var maxDrawdown := GetNumber(currentDrawdown.rest).value;
        Signed32IsCanonical(maxDrawdown.rest);
        var tradeCount := GetI32(maxDrawdown.rest).value;
        SignedIsCanonical(tradeCount.rest);
        var totalFees := GetI64(tradeCount.rest).value;
        Signed32IsCanonical(totalFees.rest);
        var roundTripCount := GetI32(totalFees.rest).value;
        var positions := GetPositions(roundTripCount.rest).value;
        assert FitsPositions(positions.value)
            && PutPositions(positions.value, positions.rest) == roundTripCount.rest by {
          PositionsAgree();
        }
        var tradeLog := GetTrades(positions.rest).value;
        assert FitsTrades(tradeLog.value) && PutTrades(tradeLog.value, tradeLog.rest) == positions.rest by {
          TradesAgree();
        }
        var pendingOrders := GetOrders(tradeLog.rest).value;
        assert FitsOrders(pendingOrders.value)
            && PutOrders(pendingOrders.value, pendingOrders.rest) == tradeLog.rest by {
          OrdersAgree();
        }
        U64IsCanonical(pendingOrders.rest);
      }
    }
  }

  /** A portfolio section with more trades than the limit is written, but not read. */
  lemma LongLogIsRefused(v: PortfolioRecord, rest: Bytes)
    requires IsFinite(v.currentDrawdown) && IsFinite(v.maxDrawdown) && FitsPositions(v.positions)
    requires |v.tradeLog| > MAX_ITEMS
    ensures GetPortfolio(PutPortfolio(v, rest)) == None
  {
    hide GetI64, PutI64, GetNumber, PutNumber, IsFinite, GetI32, PutI32, GetPositions, PutPositions;
    hide FitsPositions, GetTrade, PutTrade, GetList, PutList, PutOrders, PutU64, FieldsAreCanonical;
    var tradeLog := PutTrades(v.tradeLog, PutOrders(v.pendingOrders, PutU64(v.nextOrderId, rest)));
    LongListIsRefused(v.tradeLog, PutTrade, GetTrade, PutOrders(v.pendingOrders, PutU64(v.nextOrderId, rest)));
    assert GetPositions(PutPositions(v.positions, tradeLog)) == Some(Parsed(v.positions, tradeLog)) by {
      PositionsAgree();
    }
    FieldsAgree();
  }

  // ---------------------------------------------------------------------------
  // Risk section
  // ---------------------------------------------------------------------------

  lemma NumberLawful()
    ensures Lawful(PutNumber, GetNumber, IsFinite)
  {
    FieldsAgree();
    hide PutNumber, GetNumber, IsFinite;
  }

  lemma TextLawful()
    ensures Lawful(PutText, GetText, IsText)
  {
    FieldsAgree();
    hide PutText, GetText, IsText;
  }

  function PutDoubles(items: seq<Double>, rest: Bytes): Bytes {
    PutList(items, PutNumber, rest)
  }

  function GetDoubles(bytes: Bytes): Option<Parsed<seq<Double>>> {
    GetList(GetNumber, bytes)
  }

  ghost predicate FitsDoubles(items: seq<Double>) {
    FitsList(items, IsFinite)
  }

  lemma DoublesAgree()
    ensures forall items, rest | FitsDoubles(items) ::
              GetDoubles(PutDoubles(items, rest)) == Some(Parsed(items, rest))
    ensures forall bytes | GetDoubles(bytes).Some? ::
              var p := GetDoubles(bytes).value; FitsDoubles(p.value) && PutDoubles(p.value, p.rest) == bytes
  {
    NumberLawful();
    hide GetList, PutList, FitsList, Lawful, GetNumber, PutNumber, IsFinite;
    forall items, rest | FitsDoubles(items)
      ensures GetDoubles(PutDoubles(items, rest)) == Some(Parsed(items, rest))
    {
      ListReadsBack(items, PutNumber, GetNumber, IsFinite, rest);
    }
    forall bytes | GetDoubles(bytes).Some?
      ensures var p := GetDoubles(bytes).value; FitsDoubles(p.value) && PutDoubles(p.value, p.rest) == bytes
    {
      ListIsCanonical(PutNumber, GetNumber, IsFinite, bytes);
    }
  }

  function PutTexts(items: seq<string>, rest: Bytes): Bytes {
    PutList(items, PutText, rest)
  }

  function GetTexts(bytes: Bytes): Option<Parsed<seq<string>>> {
    GetList(GetText, bytes)
  }

  ghost predicate FitsTexts(items: seq<string>) {
    FitsList(items, IsText)
  }

  lemma TextsAgree()
    ensures forall items, rest | FitsTexts(items) :: GetTexts(PutTexts(items, rest)) == Some(Parsed(items, rest))
    ensures forall bytes | GetTexts(bytes).Some? ::
              var p := GetTexts(bytes).value; FitsTexts(p.value) && PutTexts(p.value, p.rest) == bytes
  {
    TextLawful();
    hide GetList, PutList, FitsList, Lawful, GetText, PutText, IsText;
    forall items, rest | FitsTexts(items)
      ensures GetTexts(PutTexts(items, rest)) == Some(Parsed(items, rest))
    {
      ListReadsBack(items, PutText, GetText, IsText, rest);
    }
    forall bytes | GetTexts(bytes).Some?
      ensures var p := GetTexts(bytes).value; FitsTexts(p.value) && PutTexts(p.value, p.rest) == bytes
    {
      ListIsCanonical(PutText, GetText, IsText, bytes);
    }
  }

  function PutAsset(a: Row<AssetState>, rest: Bytes): Bytes {
    PutText(a.key, PutDoubles(a.value.returnWindow, PutNumber(a.value.prevPrice,
    PutBool(a.value.prevPriceValid, PutNumber(a.value.positionValue, rest)))))
  }

  function GetAsset(bytes: Bytes): Option<Parsed<Row<AssetState>>> {
    var key :- GetText(bytes);
    var returnWindow :- GetDoubles(key.rest);
    var prevPrice :- GetNumber(returnWindow.rest);
    var prevPriceValid :- GetBool(prevPrice.rest);
    var positionValue :- GetNumber(prevPriceValid.rest);
    Some(Parsed(Row(key.value, AssetState(returnWindow.value, prevPrice.value, prevPriceValid.value,
                positionValue.value)), positionValue.rest))
  }

  ghost predicate FitsAsset(a: Row<AssetState>) {
    IsText(a.key) && FitsDoubles(a.value.returnWindow) && IsFinite(a.value.prevPrice) &&
    IsFinite(a.value.positionValue)
  }

  lemma AssetLawful()
    ensures Lawful(PutAsset, GetAsset, FitsAsset)
  {
    hide GetText, PutText, IsText, GetDoubles, PutDoubles, FitsDoubles, GetNumber, PutNumber, IsFinite;
    hide GetBool, PutBool;
    forall v, rest | FitsAsset(v) ensures GetAsset(PutAsset(v, rest)) == Some(Parsed(v, rest)) {
      hide FieldsAreCanonical;
      FieldsAgree();
      DoublesAgree();
    }
    forall bytes | GetAsset(bytes).Some? ensures Canonical(PutAsset, GetAsset, FitsAsset, bytes) {
      DoublesAgree();
      TextIsCanonical(bytes);
      var key := GetText(bytes).value;
      var returnWindow := GetDoubles(key.rest).value;
      NumberIsCanonical(returnWindow.rest);
      var prevPrice := GetNumber(returnWindow.rest).value;
      BoolIsCanonical(prevPrice.rest);
      var prevPriceValid := GetBool(prevPrice.rest).value;
      NumberIsCanonical(prevPriceValid.rest);
    }
  }

  function PutAssetTable(table: map<string, AssetState>, rest: Bytes): Bytes {
    PutTable(table, PutAsset, rest)
  }

  function GetAssetTable(bytes: Bytes): Option<Parsed<map<string, AssetState>>> {
    GetTable(GetAsset, bytes)
  }

  ghost predicate FitsAssetTable(table: map<string, AssetState>) {
    FitsTable(table, FitsAsset)
  }

  lemma AssetTableAgrees()
    ensures forall table, rest | FitsAssetTable(table) ::
              GetAssetTable(PutAssetTable(table, rest)) == Some(Parsed(table, rest))
    ensures forall bytes | GetAssetTable(bytes).Some? :: FitsAssetTable(GetAssetTable(bytes).value.value)
  {
    AssetLawful();
    hide GetTable, PutTable, FitsTable, Lawful, GetAsset, PutAsset, FitsAsset;
    forall table, rest | FitsAssetTable(table)
      ensures GetAssetTable(PutAssetTable(table, rest)) == Some(Parsed(table, rest))
    {
      TableReadsBack(table, PutAsset, GetAsset, FitsAsset, rest);
    }
    forall bytes | GetAssetTable(bytes).Some? ensures FitsAssetTable(GetAssetTable(bytes).value.value) {
      ReadTableFits(PutAsset, GetAsset, FitsAsset, bytes);
    }
  }

  function PutSynced(e: Row<Double>, rest: Bytes): Bytes {
    PutText(e.key, PutNumber(e.value, rest))
  }

  function GetSynced(bytes: Bytes): Option<Parsed<Row<Double>>> {
    var key :- GetText(bytes);
    var value :- GetNumber(key.rest);
    Some(Parsed(Row(key.value, value.value), value.rest))
  }

  ghost predicate FitsSynced(e: Row<Double>) {
    IsText(e.key) && IsFinite(e.value)
  }

  lemma SyncedLawful()
    ensures Lawful(PutSynced, GetSynced, FitsSynced)
  {
    hide GetText, PutText, IsText, GetNumber, PutNumber, IsFinite;
    forall v, rest | FitsSynced(v) ensures GetSynced(PutSynced(v, rest)) == Some(Parsed(v, rest)) {
      hide FieldsAreCanonical;
      FieldsAgree();
    }
    forall bytes | GetSynced(bytes).Some? ensures Canonical(PutSynced, GetSynced, FitsSynced, bytes) {
      TextIsCanonical(bytes);
      var key := GetText(bytes).value;
      NumberIsCanonical(key.rest);
    }
  }

  function PutSyncedTable(table: map<string, Double>, rest: Bytes): Bytes {
    PutTable(table, PutSynced, rest)
  }

  function GetSyncedTable(bytes: Bytes): Option<Parsed<map<string, Double>>> {
    GetTable(GetSynced, bytes)
  }

  ghost predicate FitsSyncedTable(table: map<string, Double>) {
    FitsTable(table, FitsSynced)
  }

  lemma SyncedTableAgrees()
    ensures forall table, rest | FitsSyncedTable(table) ::
              GetSyncedTable(PutSyncedTable(table, rest)) == Some(Parsed(table, rest))
    ensures forall bytes | GetSyncedTable(bytes).Some? :: FitsSyncedTable(GetSyncedTable(bytes).value.value)
  {
    SyncedLawful();
    hide GetTable, PutTable, FitsTable, Lawful, GetSynced, PutSynced, FitsSynced;
    forall table, rest | FitsSyncedTable(table)
      ensures GetSyncedTable(PutSyncedTable(table, rest)) == Some(Parsed(table, rest))
    {
      TableReadsBack(table, PutSynced, GetSynced, FitsSynced, rest);
    }
    forall bytes | GetSyncedTable(bytes).Some? ensures FitsSyncedTable(GetSyncedTable(bytes).value.value) {
      ReadTableFits(PutSynced, GetSynced, FitsSynced, bytes);
    }
  }

  function PutRiskAccount(s: RiskAccount, rest: Bytes): Bytes {
    PutU64(s.configuredMaxPositions, PutNumber(s.configuredVarLimit, PutU64(s.configuredVarWindow,
    PutNumber(s.totalDrawdown, PutNumber(s.dailyDrawdown, PutNumber(s.prevEquity, PutBool(s.prevEquityValid, rest)))))))
  }

  function GetRiskAccount(bytes: Bytes): Option<Parsed<RiskAccount>> {
    var configuredMaxPositions :- GetU64(bytes);
    var configuredVarLimit :- GetNumber(configuredMaxPositions.rest);
    var configuredVarWindow :- GetU64(configuredVarLimit.rest);
    var totalDrawdown :- GetNumber(configuredVarWindow.rest);
    var dailyDrawdown :- GetNumber(totalDrawdown.rest);
    var prevEquity :- GetNumber(dailyDrawdown.rest);
    var prevEquityValid :- GetBool(prevEquity.rest);
    Some(Parsed(RiskAccount(configuredMaxPositions.value, configuredVarLimit.value,
                configuredVarWindow.value, totalDrawdown.value, dailyDrawdown.value, prevEquity.value,
                prevEquityValid.value), prevEquityValid.rest))
  }

  ghost predicate FitsRiskAccount(s: RiskAccount) {
    IsFinite(s.configuredVarLimit) && IsFinite(s.totalDrawdown) && IsFinite(s.dailyDrawdown) &&
    IsFinite(s.prevEquity)
  }

  lemma RiskAccountLawful()
    ensures Lawful(PutRiskAccount, GetRiskAccount, FitsRiskAccount)
  {
    hide GetU64, PutU64, GetNumber, PutNumber, IsFinite, GetBool, PutBool;
    forall v, rest | FitsRiskAccount(v) ensures GetRiskAccount(PutRiskAccount(v, rest)) == Some(Parsed(v, rest)) {
      BoolReadsBack(v.prevEquityValid, rest);
      var prevEquityValid := PutBool(v.prevEquityValid, rest);
      NumberReadsBack(v.prevEquity, prevEquityValid);
      var prevEquity := PutNumber(v.prevEquity, prevEquityValid);
      NumberReadsBack(v.dailyDrawdown, prevEquity);
      var dailyDrawdown := PutNumber(v.dailyDrawdown, prevEquity);
      NumberReadsBack(v.totalDrawdown, dailyDrawdown);
      var totalDrawdown := PutNumber(v.totalDrawdown, dailyDrawdown);
      U64ReadsBack(v.configuredVarWindow, totalDrawdown);
      var configuredVarWindow := PutU64(v.configuredVarWindow, totalDrawdown);
      NumberReadsBack(v.configuredVarLimit, configuredVarWindow);
      var configuredVarLimit := PutNumber(v.configuredVarLimit, configuredVarWindow);
      U64ReadsBack(v.configuredMaxPositions, configuredVarLimit);
    }
    forall bytes | GetRiskAccount(bytes).Some?
      ensures Canonical(PutRiskAccount, GetRiskAccount, FitsRiskAccount, bytes)
    {
      var read := GetRiskAccount(bytes).value;
      assert FitsRiskAccount(read.value) && PutRiskAccount(read.value, read.rest) == bytes by {
        U64IsCanonical(bytes);
        var configuredMaxPositions := GetU64(bytes).value;
        NumberIsCanonical(configuredMaxPositions.rest);
        var configuredVarLimit := GetNumber(configuredMaxPositions.rest).value;
        U64IsCanonical(configuredVarLimit.rest);
        var configuredVarWindow := GetU64(configuredVarLimit.rest).value;
        NumberIsCanonical(configuredVarWindow.rest);
        var totalDrawdown := GetNumber(configuredVarWindow.rest).value;
        NumberIsCanonical(totalDrawdown.rest);
        var dailyDrawdown := GetNumber(totalDrawdown.rest).value;
        NumberIsCanonical(dailyDrawdown.rest);
        var prevEquity := GetNumber(dailyDrawdown.rest).value;
        BoolIsCanonical(prevEquity.rest);
      }
    }
  }

  function PutRiskReturns(s: RiskReturns, rest: Bytes): Bytes {
    PutDoubles(s.returnWindow, PutNumber(s.currentVaR95, PutNumber(s.returnStdDev,
    PutAssetTable(s.assetStates, PutDoubles(s.covarianceMatrix, PutTexts(s.assetOrder, rest))))))
  }

  function GetRiskReturns(bytes: Bytes): Option<Parsed<RiskReturns>> {
    var returnWindow :- GetDoubles(bytes);
    var currentVaR95 :- GetNumber(returnWindow.rest);
    var returnStdDev :- GetNumber(currentVaR95.rest);
    var assetStates :- GetAssetTable(returnStdDev.rest);
    var covarianceMatrix :- GetDoubles(assetStates.rest);
    var assetOrder :- GetTexts(covarianceMatrix.rest);
    Some(Parsed(RiskReturns(returnWindow.value, currentVaR95.value, returnStdDev.value, assetStates.value,
                covarianceMatrix.value, assetOrder.value), assetOrder.rest))
  }

  ghost predicate FitsRiskReturns(s: RiskReturns) {
    FitsDoubles(s.returnWindow) && IsFinite(s.currentVaR95) && IsFinite(s.returnStdDev) &&
    FitsAssetTable(s.assetStates) && FitsDoubles(s.covarianceMatrix) && FitsTexts(s.assetOrder)
  }

  function PutRiskLimits(s: RiskLimits, rest: Bytes): Bytes {
    PutBool(s.multiAssetMode, PutBool(s.closeOnly, PutU32(s.lastLatencyMs, PutBool(s.halted,
    PutSyncedTable(s.syncedPositions, PutU64(s.effectiveMaxPositions, PutNumber(s.effectiveVarLimit,
    PutBool(s.volatilityScaled, rest))))))))
  }

  function GetRiskLimits(bytes: Bytes): Option<Parsed<RiskLimits>> {
    var multiAssetMode :- GetBool(bytes);
    var closeOnly :- GetBool(multiAssetMode.rest);
    var lastLatencyMs :- GetU32(closeOnly.rest);
    var halted :- GetBool(lastLatencyMs.rest);
    var syncedPositions :- GetSyncedTable(halted.rest);
    var effectiveMaxPositions :- GetU64(syncedPositions.rest);
    var effectiveVarLimit :- GetNumber(effectiveMaxPositions.rest);
    var volatilityScaled :- GetBool(effectiveVarLimit.rest);
    Some(Parsed(RiskLimits(multiAssetMode.value, closeOnly.value, lastLatencyMs.value, halted.value,
                syncedPositions.value, effectiveMaxPositions.value, effectiveVarLimit.value,
                volatilityScaled.value), volatilityScaled.rest))
  }

  ghost predicate FitsRiskLimits(s: RiskLimits) {
    FitsSyncedTable(s.syncedPositions) && IsFinite(s.effectiveVarLimit)
  }

  function PutRisk(s: RiskRecord, rest: Bytes): Bytes {
    PutRiskAccount(s.account, PutRiskReturns(s.history, PutRiskLimits(s.limits, rest)))
  }

  function GetRisk(bytes: Bytes): Option<Parsed<RiskRecord>> {
    var account :- GetRiskAccount(bytes);
    var history :- GetRiskReturns(account.rest);
    var limits :- GetRiskLimits(history.rest);
    Some(Parsed(RiskRecord(account.value, history.value, limits.value), limits.rest))
  }

  ghost predicate FitsRisk(s: RiskRecord) {
    FitsRiskAccount(s.account) && FitsRiskReturns(s.history) && FitsRiskLimits(s.limits)
  }

  lemma RiskReturnsAgree()
    ensures forall v, rest | FitsRiskReturns(v) :: GetRiskReturns(PutRiskReturns(v, rest)) == Some(Parsed(v, rest))
    ensures forall bytes | GetRiskReturns(bytes).Some? :: FitsRiskReturns(GetRiskReturns(bytes).value.value)
  {
    hide GetDoubles, PutDoubles, FitsDoubles, GetNumber, PutNumber, IsFinite, GetAssetTable, PutAssetTable;
    hide FitsAssetTable, GetTexts, PutTexts, FitsTexts;
    forall v, rest | FitsRiskReturns(v) ensures GetRiskReturns(PutRiskReturns(v, rest)) == Some(Parsed(v, rest)) {
      hide FieldsAreCanonical;
      FieldsAgree();
      DoublesAgree();
      AssetTableAgrees();
      TextsAgree();
    }
    forall bytes | GetRiskReturns(bytes).Some? ensures FitsRiskReturns(GetRiskReturns(bytes).value.value) {
      DoublesAgree();
      AssetTableAgrees();
      TextsAgree();
      var returnWindow := GetDoubles(bytes).value;
      NumberIsCanonical(returnWindow.rest);
      var currentVaR95 := GetNumber(returnWindow.rest).value;
      NumberIsCanonical(currentVaR95.rest);
      var returnStdDev := GetNumber(currentVaR95.rest).value;
      var assetStates := GetAssetTable(returnStdDev.rest).value;
      var covarianceMatrix := GetDoubles(assetStates.rest).value;
    }
  }

  lemma RiskLimitsAgree()
    ensures forall v, rest | FitsRiskLimits(v) :: GetRiskLimits(PutRiskLimits(v, rest)) == Some(Parsed(v, rest))
    ensures forall bytes | GetRiskLimits(bytes).Some? :: FitsRiskLimits(GetRiskLimits(bytes).value.value)
  {
    hide GetBool, PutBool, GetU32, PutU32, GetSyncedTable, PutSyncedTable, FitsSyncedTable, GetU64, PutU64;
    hide GetNumber, PutNumber, IsFinite;
    forall v, rest | FitsRiskLimits(v) ensures GetRiskLimits(PutRiskLimits(v, rest)) == Some(Parsed(v, rest)) {
      hide FieldsAreCanonical;
      FieldsAgree();
      SyncedTableAgrees();
    }
    forall bytes | GetRiskLimits(bytes).Some? ensures FitsRiskLimits(GetRiskLimits(bytes).value.value) {
      SyncedTableAgrees();
      var multiAssetMode := GetBool(bytes).value;
      var closeOnly := GetBool(multiAssetMode.rest).value;
      var lastLatencyMs := GetU32(closeOnly.rest).value;
      var halted := GetBool(lastLatencyMs.rest).value;
      var syncedPositions := GetSyncedTable(halted.rest).value;
      var effectiveMaxPositions := GetU64(syncedPositions.rest).value;
      NumberIsCanonical(effectiveMaxPositions.rest);
      var effectiveVarLimit := GetNumber(effectiveMaxPositions.rest).value;
    }
  }

  /** Reading undoes writing the risk section, and what is read is within the limits. */
  lemma RiskAgrees()
    ensures forall v, rest | FitsRisk(v) :: GetRisk(PutRisk(v, rest)) == Some(Parsed(v, rest))
    ensures forall bytes | GetRisk(bytes).Some? :: FitsRisk(GetRisk(bytes).value.value)
  {
    hide GetRiskAccount, PutRiskAccount, FitsRiskAccount, GetRiskReturns, PutRiskReturns, FitsRiskReturns;
    hide GetRiskLimits, PutRiskLimits, FitsRiskLimits;
    RiskAccountLawful();
    RiskReturnsAgree();
    RiskLimitsAgree();
    forall bytes | GetRisk(bytes).Some? ensures FitsRisk(GetRisk(bytes).value.value) {
      assert Canonical(PutRiskAccount, GetRiskAccount, FitsRiskAccount, bytes);
    }
  }

  // ---------------------------------------------------------------------------
  // Regime and allocator sections
  // ---------------------------------------------------------------------------

  function PutRegime(s: RegimeRecord, rest: Bytes): Bytes {
    PutNumber(s.smoothTR, PutNumber(s.smoothDMPlus, PutNumber(s.smoothDMMinus, PutNumber(s.adx,
    PutI32(s.adxObservations, PutDoubles(s.returnWindow, PutNumber(s.prevClose, PutBool(s.prevCloseValid,
    PutNumber(s.variance, PutNumber(s.prevHigh, PutNumber(s.prevLow, PutBool(s.prevHLValid,
    PutU8(RegimeCode(s.regime), rest)))))))))))))
  }

  function GetRegime(bytes: Bytes): Option<Parsed<RegimeRecord>> {
    var smoothTR :- GetNumber(bytes);
    var smoothDMPlus :- GetNumber(smoothTR.rest);
    var smoothDMMinus :- GetNumber(smoothDMPlus.rest);
    var adx :- GetNumber(smoothDMMinus.rest);
    var adxObservations :- GetI32(adx.rest);
    var returnWindow :- GetDoubles(adxObservations.rest);
    var prevClose :- GetNumber(returnWindow.rest);
    var prevCloseValid :- GetBool(prevClose.rest);
    var variance :- GetNumber(prevCloseValid.rest);
    var prevHigh :- GetNumber(variance.rest);
    var prevLow :- GetNumber(prevHigh.rest);
    var prevHLValid :- GetBool(prevLow.rest);
    var regime :- GetMarketRegime(prevHLValid.rest);
    Some(Parsed(RegimeRecord(smoothTR.value, smoothDMPlus.value, smoothDMMinus.value, adx.value,
                adxObservations.value, returnWindow.value, prevClose.value, prevCloseValid.value,
                variance.value, prevHigh.value, prevLow.value, prevHLValid.value, regime.value), regime.rest))
  }

  ghost predicate FitsRegime(s: RegimeRecord) {
    IsFinite(s.smoothTR) && IsFinite(s.smoothDMPlus) && IsFinite(s.smoothDMMinus) && IsFinite(s.adx)
    && FitsDoubles(s.returnWindow) && IsFinite(s.prevClose) && IsFinite(s.variance) &&
    IsFinite(s.prevHigh) && IsFinite(s.prevLow)
  }

  lemma RegimeLawful()
    ensures Lawful(PutRegime, GetRegime, FitsRegime)
  {
    hide GetNumber, PutNumber, IsFinite, GetI32, PutI32, GetDoubles, PutDoubles, FitsDoubles, GetBool;
    hide PutBool, GetMarketRegime, RegimeCode, PutU8;
    forall v, rest | FitsRegime(v) ensures GetRegime(PutRegime(v, rest)) == Some(Parsed(v, rest)) {
      var regime := PutU8(RegimeCode(v.regime), rest);
      assert GetMarketRegime(regime) == Some(Parsed(v.regime, rest)) by {
        MarketRegimeAgrees();
      }
      BoolReadsBack(v.prevHLValid, regime);
      var prevHLValid := PutBool(v.prevHLValid, regime);
      NumberReadsBack(v.prevLow, prevHLValid);
      var prevLow := PutNumber(v.prevLow, prevHLValid);
      NumberReadsBack(v.prevHigh, prevLow);
      var prevHigh := PutNumber(v.prevHigh, prevLow);
      NumberReadsBack(v.variance, prevHigh);
      var variance := PutNumber(v.variance, prevHigh);
      BoolReadsBack(v.prevCloseValid, variance);
      var prevCloseValid := PutBool(v.prevCloseValid, variance);
      NumberReadsBack(v.prevClose, prevCloseValid);
      var prevClose := PutNumber(v.prevClose, prevCloseValid);
      var returnWindow := PutDoubles(v.returnWindow, prevClose);
      assert GetDoubles(returnWindow) == Some(Parsed(v.returnWindow, prevClose)) by {
        DoublesAgree();
      }
      Signed32ReadsBack(v.adxObservations, returnWindow);
      var adxObservations := PutI32(v.adxObservations, returnWindow);
      NumberReadsBack(v.adx, adxObservations);
      var adx := PutNumber(v.adx, adxObservations);
      NumberReadsBack(v.smoothDMMinus, adx);
      var smoothDMMinus := PutNumber(v.smoothDMMinus, adx);
      NumberReadsBack(v.smoothDMPlus, smoothDMMinus);
      var smoothDMPlus := PutNumber(v.smoothDMPlus, smoothDMMinus);
      NumberReadsBack(v.smoothTR, smoothDMPlus);
    }
    forall bytes | GetRegime(bytes).Some? ensures Canonical(PutRegime, GetRegime, FitsRegime, bytes) {
      var read := GetRegime(bytes).value;
      assert FitsRegime(read.value) && PutRegime(read.value, read.rest) == bytes by {
        NumberIsCanonical(bytes);
        var smoothTR := GetNumber(bytes).value;
        NumberIsCanonical(smoothTR.rest);
        var smoothDMPlus := GetNumber(smoothTR.rest).value;
        NumberIsCanonical(smoothDMPlus.rest);
        var smoothDMMinus := GetNumber(smoothDMPlus.rest).value;
        NumberIsCanonical(smoothDMMinus.rest);
        var adx := GetNumber(smoothDMMinus.rest).value;
        Signed32IsCanonical(adx.rest);
        var adxObservations := GetI32(adx.rest).value;
        var returnWindow := GetDoubles(adxObservations.rest).value;
        assert FitsDoubles(returnWindow.value)
            && PutDoubles(returnWindow.value, returnWindow.rest) == adxObservations.rest by {
          DoublesAgree();
        }
        NumberIsCanonical(returnWindow.rest);
        var prevClose := GetNumber(returnWindow.rest).value;
        BoolIsCanonical(prevClose.rest);
        var prevCloseValid := GetBool(prevClose.rest).value;
        NumberIsCanonical(prevCloseValid.rest);
        var variance := GetNumber(prevCloseValid.rest).value;
        NumberIsCanonical(variance.rest);
        var prevHigh := GetNumber(variance.rest).value;
        NumberIsCanonical(prevHigh.rest);
        var prevLow := GetNumber(prevHigh.rest).value;
        BoolIsCanonical(prevLow.rest);
        var prevHLValid := GetBool(prevLow.rest).value;
        var regime := GetMarketRegime(prevHLValid.rest).value;
        assert PutU8(RegimeCode(regime.value), regime.rest) == prevHLValid.rest by {
          MarketRegimeAgrees();
        }
      }
    }
  }

  function PutPhi(e: Row<PhiState>, rest: Bytes): Bytes {
    PutText(e.key, PutDoubles(e.value.pnlWindow, PutNumber(e.value.phi, rest)))
  }

  function GetPhi(bytes: Bytes): Option<Parsed<Row<PhiState>>> {
    var key :- GetText(bytes);
    var pnlWindow :- GetDoubles(key.rest);
    var phi :- GetNumber(pnlWindow.rest);
    Some(Parsed(Row(key.value, PhiState(pnlWindow.value, phi.value)), phi.rest))
  }

  ghost predicate FitsPhi(e: Row<PhiState>) {
    IsText(e.key) && FitsDoubles(e.value.pnlWindow) && IsFinite(e.value.phi)
  }

  lemma PhiLawful()
    ensures Lawful(PutPhi, GetPhi, FitsPhi)
  {
    hide GetText, PutText, IsText, GetDoubles, PutDoubles, FitsDoubles, GetNumber, PutNumber, IsFinite;
    forall v, rest | FitsPhi(v) ensures GetPhi(PutPhi(v, rest)) == Some(Parsed(v, rest)) {
      hide FieldsAreCanonical;
      FieldsAgree();
      DoublesAgree();
    }
    forall bytes | GetPhi(bytes).Some? ensures Canonical(PutPhi, GetPhi, FitsPhi, bytes) {
      DoublesAgree();
      TextIsCanonical(bytes);
      var key := GetText(bytes).value;
      var pnlWindow := GetDoubles(key.rest).value;
      NumberIsCanonical(pnlWindow.rest);
    }
  }

  function PutPhiTable(table: map<string, PhiState>, rest: Bytes): Bytes {
    PutTable(table, PutPhi, rest)
  }

  function GetPhiTable(bytes: Bytes): Option<Parsed<map<string, PhiState>>> {
    GetTable(GetPhi, bytes)
  }

  ghost predicate FitsPhiTable(table: map<string, PhiState>) {
    FitsTable(table, FitsPhi)
  }

  lemma PhiTableAgrees()
    ensures forall table, rest | FitsPhiTable(table) ::
              GetPhiTable(PutPhiTable(table, rest)) == Some(Parsed(table, rest))
    ensures forall bytes | GetPhiTable(bytes).Some? :: FitsPhiTable(GetPhiTable(bytes).value.value)
  {
    PhiLawful();
    hide GetTable, PutTable, FitsTable, Lawful, GetPhi, PutPhi, FitsPhi;
    forall table, rest | FitsPhiTable(table)
      ensures GetPhiTable(PutPhiTable(table, rest)) == Some(Parsed(table, rest))
    {
      TableReadsBack(table, PutPhi, GetPhi, FitsPhi, rest);
    }
    forall bytes | GetPhiTable(bytes).Some? ensures FitsPhiTable(GetPhiTable(bytes).value.value) {
      ReadTableFits(PutPhi, GetPhi, FitsPhi, bytes);
    }
  }

  // ---------------------------------------------------------------------------
  // The whole payload
  // ---------------------------------------------------------------------------

  const MAGIC := "TradeBotState"

  function PutExtended(e: Option<ExtendedRecord>, rest: Bytes): Bytes {
    match e
    case Some(x) => PutRegime(x.regime, PutPhiTable(x.phi, rest))
    case None => rest
  }

  function GetExtended(hasExtended: bool, bytes: Bytes): Option<Parsed<Option<ExtendedRecord>>> {
    if !hasExtended then Some(Parsed(None, bytes))
    else
      var regime :- GetRegime(bytes);
      var phi :- GetPhiTable(regime.rest);
      Some(Parsed(Some(ExtendedRecord(regime.value, phi.value)), phi.rest))
  }

  function Encode(p: Payload): Bytes {
    PutText(MAGIC, PutBool(p.extended.Some?, PutU64(p.checkpoint,
    PutPortfolio(p.portfolio, PutRisk(p.risk, PutExtended(p.extended, []))))))
  }

  /** The payload the bytes hold; no byte may be left over. */
  function Decode(bytes: Bytes): Option<Payload> {
    var magic :- GetText(bytes);
    if magic.value != MAGIC then None
    else
      var hasExtended :- GetBool(magic.rest);
      var checkpoint :- GetU64(hasExtended.rest);
      var portfolio :- GetPortfolio(checkpoint.rest);
      var risk :- GetRisk(portfolio.rest);
      var extended :- GetExtended(hasExtended.value, risk.rest);
      if extended.rest != [] then None
      else Some(Payload(checkpoint.value, portfolio.value, risk.value, extended.value))
  }

  ghost predicate FitsExtended(e: Option<ExtendedRecord>) {
    e.Some? ==> FitsRegime(e.value.regime) && FitsPhiTable(e.value.phi)
  }

  /** Within the limits the reader enforces: text and list sizes, finite numbers, non-empty keys. */
  ghost predicate Fits(p: Payload) {
    FitsPortfolio(p.portfolio) && FitsRisk(p.risk) && FitsExtended(p.extended)
  }

  lemma ExtendedAgrees()
    ensures forall e, rest | FitsExtended(e) :: GetExtended(e.Some?, PutExtended(e, rest)) == Some(Parsed(e, rest))
    ensures forall hasExtended, bytes | GetExtended(hasExtended, bytes).Some? ::
              var e := GetExtended(hasExtended, bytes).value.value; FitsExtended(e) && e.Some? == hasExtended
  {
    hide GetRegime, PutRegime, FitsRegime, GetPhiTable, PutPhiTable, FitsPhiTable;
    RegimeLawful();
    PhiTableAgrees();
    forall hasExtended, bytes | hasExtended && GetExtended(hasExtended, bytes).Some?
      ensures FitsExtended(GetExtended(hasExtended, bytes).value.value)
    {
      assert Canonical(PutRegime, GetRegime, FitsRegime, bytes);
    }
  }

  /** Decoding an encoded payload gives back every section, with no byte left over. */
  lemma EncodedPayloadDecodes(p: Payload)
    requires Fits(p)
    ensures Decode(Encode(p)) == Some(p)
  {
    hide GetPortfolio, PutPortfolio, FitsPortfolio, GetRisk, PutRisk, FitsRisk, GetExtended, PutExtended;
    hide FitsExtended, GetText, PutText, GetBool, PutBool, GetU64, PutU64;
    var extended := PutExtended(p.extended, []);
    var risk := PutRisk(p.risk, extended);
    var portfolio := PutPortfolio(p.portfolio, risk);
    var checkpoint := PutU64(p.checkpoint, portfolio);
    var flag := PutBool(p.extended.Some?, checkpoint);
    TextReadsBack(MAGIC, flag);
    BoolReadsBack(p.extended.Some?, checkpoint);
    U64ReadsBack(p.checkpoint, portfolio);
    assert GetPortfolio(portfolio) == Some(Parsed(p.portfolio, risk)) by {
      PortfolioLawful();
    }
    assert GetRisk(risk) == Some(Parsed(p.risk, extended)) by {
      RiskAgrees();
    }
    assert GetExtended(p.extended.Some?, extended) == Some(Parsed(p.extended, [])) by {
      ExtendedAgrees();
    }
  }

  /** Whatever is accepted lies within the limits, so encoding it again is accepted and means the same. */
  lemma DecodedPayloadFits(bytes: Bytes)
    requires Decode(bytes).Some?
    ensures Fits(Decode(bytes).value)
    ensures Decode(Encode(Decode(bytes).value)) == Decode(bytes)
  {
    var p := Decode(bytes).value;
    assert Fits(p) by {
      hide GetPortfolio, PutPortfolio, FitsPortfolio, GetRisk, PutRisk, FitsRisk, GetExtended, PutExtended;
      hide FitsExtended, GetText, PutText, GetBool, PutBool, GetU64, PutU64;
      var hasExtended := GetBool(GetText(bytes).value.rest).value;
      var start := GetU64(hasExtended.rest).value.rest;
      var portfolio := GetPortfolio(start).value;
      var risk := GetRisk(portfolio.rest).value;
      assert FitsPortfolio(portfolio.value) by {
        PortfolioLawful();
        assert Canonical(PutPortfolio, GetPortfolio, FitsPortfolio, start);
      }
      assert FitsRisk(risk.value) by {
        RiskAgrees();
      }
      assert FitsExtended(GetExtended(hasExtended.value, risk.rest).value.value) by {
        ExtendedAgrees();
      }
    }
    EncodedPayloadDecodes(p);
  }

  /** Two different payloads never have the same encoding. */
  lemma EncodingIsInjective(p: Payload, q: Payload)
    requires Fits(p) && Fits(q) && Encode(p) == Encode(q)
    ensures p == q
  {
    hide *;
    EncodedPayloadDecodes(p);
    EncodedPayloadDecodes(q);
  }
}
