/**
 Saving and loading a whole restart snapshot: what is validated, in which order, and when loading
 gives back what was saved.
 */
module SnapshotLoading {
  import opened Wrappers
  import opened MachineWords
  import opened SortedKeys
  import opened TableTotals
  import opened ByteCodec
  import opened SnapshotFormat
  import E = SnapshotEnvelope
  import L = PortfolioLedger
  import C = LedgerConservation
  import S = LedgerSnapshot

  // ---------------------------------------------------------------------------
  // The ledger inside a portfolio record
  // ---------------------------------------------------------------------------

  function TwoTo(n: int): real
    decreases if n < 0 then -n else n
  {
    if n == 0 then 1.0 else if n > 0 then 2.0 * TwoTo(n - 1) else TwoTo(n + 1) / 2.0
  }

  /** The number a finite double stands for: a sign, a 53-bit significand and a binary exponent. */
  function RealOf(bits: Double): real {
    var exponent := bits / 0x10_0000_0000_0000 % 2048;
    var fraction := bits % 0x10_0000_0000_0000;
    var significand := if exponent == 0 then fraction else 0x10_0000_0000_0000 + fraction;
    var magnitude := significand as real * TwoTo((if exponent == 0 then 1 else exponent) - 1075);
    if bits >= TWO63 then -magnitude else magnitude
  }

  function ToSnapshot(p: PortfolioRecord): S.Snapshot {
    S.Snapshot(p.cash, p.positions,
               L.Valuation(p.unrealized, p.totalEquity, p.maxEquity, RealOf(p.currentDrawdown), RealOf(p.maxDrawdown)),
               p.tradeCount, p.totalFees, p.tradeLog, p.roundTripCount)
  }

  // ---------------------------------------------------------------------------
  // Validation
  // ---------------------------------------------------------------------------

  predicate AllFinite(values: seq<Double>) {
    forall v :: v in values ==> IsFinite(v)
  }

  predicate ValidPosition(p: S.PositionSnapshot) {
    p.symbol != "" && p.quantity > 0 && p.entryPrice > 0 && p.isLong && p.entryFee >= 0 && p.costBasis > 0
        && p.lastMark > 0
  }

  predicate ValidOrder(o: OrderRecord, nextOrderId: u64) {
    o.symbol != "" && o.orderId != 0 && o.orderId < nextOrderId
  }

  predicate ValidTrade(t: L.Trade) {
    t.symbol != "" && t.entryPrice > 0 && t.exitPrice > 0 && t.quantity > 0 && t.totalFees >= 0
  }

  predicate ValidPortfolio(p: PortfolioRecord, h: HashOrder) {
    && p.cash >= 0 && p.totalEquity >= 0 && p.maxEquity >= 0 && p.totalFees >= 0
    && p.tradeCount >= 0 && p.roundTripCount >= 0 && p.nextOrderId != 0
    && IsFinite(p.currentDrawdown) && IsFinite(p.maxDrawdown)
    && (forall i :: 0 <= i < |p.positions| ==> ValidPosition(p.positions[i]))
    && (forall i, j :: 0 <= i < j < |p.positions| ==> p.positions[i].symbol != p.positions[j].symbol)
    && (forall i :: 0 <= i < |p.pendingOrders| ==> ValidOrder(p.pendingOrders[i], p.nextOrderId))
    && (forall i, j :: 0 <= i < j < |p.pendingOrders| ==> p.pendingOrders[i].orderId != p.pendingOrders[j].orderId)
    && (forall i :: 0 <= i < |p.tradeLog| ==> ValidTrade(p.tradeLog[i]))
    && S.RestoreState(ToSnapshot(p), h).Ok?
  }

  predicate ValidAsset(a: AssetState) {
    AllFinite(a.returnWindow) && IsFinite(a.prevPrice) && IsFinite(a.positionValue)
  }

  predicate ValidRisk(r: RiskRecord) {
    && IsFinite(r.account.configuredVarLimit) && IsFinite(r.account.totalDrawdown) && IsFinite(r.account.dailyDrawdown)
    && IsFinite(r.account.prevEquity) && AllFinite(r.history.returnWindow) && IsFinite(r.history.currentVaR95)
    && IsFinite(r.history.returnStdDev) && AllFinite(r.history.covarianceMatrix) && IsFinite(r.limits.effectiveVarLimit)
    && (forall k :: k in r.history.assetStates ==> k != "" && ValidAsset(r.history.assetStates[k]))
    && (forall k :: k in r.limits.syncedPositions ==> k != "" && IsFinite(r.limits.syncedPositions[k]))
    && (r.history.covarianceMatrix != [] ==>
          |r.history.covarianceMatrix| == |r.history.assetOrder| * |r.history.assetOrder|)
    && (forall symbol :: symbol in r.history.assetOrder ==> symbol in r.history.assetStates)
  }

  predicate ValidExtended(e: ExtendedRecord) {
    var s := e.regime;
    && IsFinite(s.smoothTR) && IsFinite(s.smoothDMPlus) && IsFinite(s.smoothDMMinus) && IsFinite(s.adx)
    && IsFinite(s.prevClose) && IsFinite(s.variance) && IsFinite(s.prevHigh) && IsFinite(s.prevLow)
    && AllFinite(s.returnWindow)
    && (forall k :: k in e.phi ==> k != "" && IsFinite(e.phi[k].phi) && AllFinite(e.phi[k].pnlWindow))
  }

  predicate Valid(p: Payload, h: HashOrder) {
    ValidPortfolio(p.portfolio, h) && ValidRisk(p.risk) && (p.extended.Some? ==> ValidExtended(p.extended.value))
  }

  /** The limits a running risk engine was built with. */
  datatype RiskConfig = RiskConfig(maxPositions: u64, varLimit: Double, varWindow: u64)

  predicate CanRestore(r: RiskRecord, config: RiskConfig) {
    && r.account.configuredMaxPositions == config.maxPositions
    && RealOf(r.account.configuredVarLimit) == RealOf(config.varLimit)
    && r.account.configuredVarWindow == config.varWindow
    && r.limits.effectiveMaxPositions <= config.maxPositions
    && RealOf(r.limits.effectiveVarLimit) <= RealOf(config.varLimit)
  }

  // ---------------------------------------------------------------------------
  // Saving and loading
  // ---------------------------------------------------------------------------

  /** The text written for a state, or nothing when the state is refused. */
  ghost function Save(p: Payload, errorFree: bool, h: HashOrder): Option<string> {
    if !errorFree || !Valid(p, h) then None else Some(E.FileText(Encode(p)))
  }

  ghost function Load(json: string, wantsExtended: bool, config: RiskConfig, h: HashOrder): Result<Payload,
      E.LoadError> {
    var bytes :- E.LoadBytes(json);
    match Decode(bytes)
    case None => Err(E.InvalidPayload)
    case Some(p) =>
      if wantsExtended && p.extended == None then Err(E.LacksExtendedState)
      else if !ValidPortfolio(p.portfolio, h) || !ValidRisk(p.risk) then Err(E.InvalidState)
      else if !CanRestore(p.risk, config) then Err(E.ConfigurationMismatch)
      else if p.extended.Some? && !ValidExtended(p.extended.value) then Err(E.InvalidState)
      else Ok(p)
  }

  /**
   A state saved under one iteration order loads under another, as exactly itself, if and only if its
   ledger restores in that order too and the state lies within the reader's limits, which saving does
   not check: text and list sizes, and the total size of the payload.
   */
  lemma SavedStateLoads(p: Payload, wantsExtended: bool, config: RiskConfig, h: HashOrder, h': HashOrder)
    requires Save(p, true, h).Some? && CanRestore(p.risk, config) && (wantsExtended ==> p.extended.Some?)
    ensures Load(Save(p, true, h).value, wantsExtended, config, h') == Ok(p)
       <==> Fits(p) && |Encode(p)| <= E.MAX_PAYLOAD && S.RestoreState(ToSnapshot(p.portfolio), h').Ok?
  {
    hide Encode, Decode, Fits, ValidPosition, ValidOrder, ValidTrade, ValidRisk, ValidExtended, CanRestore;
    hide ToSnapshot, S.RestoreState, E.LoadBytes, E.FileText, IsFinite;
    var bytes, file := Encode(p), E.FileText(Encode(p));
    E.SavedFileLoads(bytes);
    if Fits(p) && |bytes| <= E.MAX_PAYLOAD {
      EncodedPayloadDecodes(p);
    }
    if Load(file, wantsExtended, config, h') == Ok(p) {
      var read := E.LoadBytes(file).value;
      DecodedPayloadFits(read);
      assert Decode(read) == Some(p);
      EncodedPayloadDecodes(p);
      SameFileSameBytes(bytes, read);
    }
  }

  lemma SameFileSameBytes(saved: Bytes, read: Bytes)
    requires E.LoadBytes(E.FileText(saved)) == Ok(read)
    ensures read == saved && |saved| <= E.MAX_PAYLOAD
  {
    hide E.LoadBytes, E.HexDecode, E.Canonical, E.Checksum, E.HexEncode, E.Hex64;
    E.AcceptedIff(E.FileText(saved), read);
    var text :| E.HexDecode(text) == Some(read)
             && E.FileText(saved) == E.Canonical(E.CurrentEnvelope(E.Hex64(E.Checksum(read)), text));
    E.Hex64IsInjective(E.Checksum(saved), E.Checksum(read));
    E.Hex64IsInjective(E.Checksum(read), E.Checksum(saved));
    E.PayloadIsDetermined(E.Hex64(E.Checksum(saved)), E.Hex64(E.Checksum(read)), E.HexEncode(saved), text);
    E.HexEncodeShape(saved);
    E.HexDecodesIff(text, read);
    E.HexEncodeIsInjective(saved, read);
  }

  /** A saved file with one character of its payload changed, other than in letter case, is refused. */
  lemma DamagedFileIsRefused(p: Payload, j: nat, c: char, wantsExtended: bool, config: RiskConfig, h: HashOrder)
    requires Save(p, true, h).Some? && |Encode(p)| <= E.MAX_PAYLOAD
    requires j < |E.HexEncode(Encode(p))| && E.Lower(c) != E.HexEncode(Encode(p))[j]
    ensures var damaged := E.HexEncode(Encode(p))[j := c];
            Load(E.Canonical(E.CurrentEnvelope(E.Hex64(E.Checksum(Encode(p))), damaged)), wantsExtended, config, h).Err?
  {
    hide Encode, E.LoadBytes, E.HexEncode, E.Canonical, E.Checksum, E.Hex64, E.Lower;
    E.OneDamagedCharacter(Encode(p), j, c);
  }

  /** What was tested while loading is what committing needs. */
  lemma LoadedStateRestores(json: string, wantsExtended: bool, config: RiskConfig, h: HashOrder)
    requires Load(json, wantsExtended, config, h).Ok?
    ensures var p := Load(json, wantsExtended, config, h).value;
            && S.RestoreState(ToSnapshot(p.portfolio), h).Ok?
            && p.risk.limits.effectiveMaxPositions <= config.maxPositions
            && (wantsExtended ==> p.extended.Some?)
  {
    hide E.LoadBytes, Decode, ValidRisk, ValidExtended;
  }

  // ---------------------------------------------------------------------------
  // Saved, and unable to load
  // ---------------------------------------------------------------------------

  /** A payload the reader refuses, or too large a payload, is written to a file that does not load. */
  lemma RefusedPayloadCannotLoad(p: Payload, wantsExtended: bool, config: RiskConfig, h: HashOrder, h': HashOrder)
    requires Save(p, true, h).Some?
    requires Decode(Encode(p)) == None || |Encode(p)| > E.MAX_PAYLOAD
    ensures Load(Save(p, true, h).value, wantsExtended, config, h').Err?
  {
    hide Encode, Decode, ValidPortfolio, ValidRisk, ValidExtended, E.LoadBytes, E.FileText;
    var loaded := E.LoadBytes(E.FileText(Encode(p)));
    if loaded.Ok? {
      SameFileSameBytes(Encode(p), loaded.value);
    }
  }

  /** Saving writes a trade log of any length; a log of more than a million trades never loads again. */
  lemma LongLogCannotLoad(p: Payload, wantsExtended: bool, config: RiskConfig, h: HashOrder, h': HashOrder)
    requires Save(p, true, h).Some? && FitsPositions(p.portfolio.positions) && |p.portfolio.tradeLog| > 1_000_000
    ensures Load(Save(p, true, h).value, wantsExtended, config, h').Err?
  {
    assert Decode(Encode(p)) == None by {
      hide ValidPosition, ValidOrder, ValidTrade, ValidRisk, ValidExtended, FitsPositions, IsFinite;
      LogIsRefused(p);
    }
    hide *;
    RefusedPayloadCannotLoad(p, wantsExtended, config, h, h');
  }

  lemma LogIsRefused(p: Payload)
    requires IsFinite(p.portfolio.currentDrawdown) && IsFinite(p.portfolio.maxDrawdown)
    requires FitsPositions(p.portfolio.positions) && |p.portfolio.tradeLog| > MAX_ITEMS
    ensures Decode(Encode(p)) == None
  {
    hide GetPortfolio, PutPortfolio, PutRisk, PutExtended, GetText, PutText, GetBool, PutBool, GetU64, PutU64;
    hide FitsPositions, IsFinite;
    var portfolio := PutPortfolio(p.portfolio, PutRisk(p.risk, PutExtended(p.extended, [])));
    var checkpoint := PutU64(p.checkpoint, portfolio);
    TextReadsBack(MAGIC, PutBool(p.extended.Some?, checkpoint));
    BoolReadsBack(p.extended.Some?, checkpoint);
    U64ReadsBack(p.checkpoint, portfolio);
    LongLogIsRefused(p.portfolio, PutRisk(p.risk, PutExtended(p.extended, [])));
  }

  const FLAT_TRADE := L.Trade("X", 0, 0, 1, 1, 1, 0, 0, 0, "")
  const IDLE_RISK := RiskRecord(RiskAccount(0, 0, 0, 0, 0, 0, false), RiskReturns([], 0, 0, map[], [], []),
                                RiskLimits(false, false, 0, false, map[], 0, 0, false))

  /** An account without money or positions that has logged `trades`. */
  function Logged(trades: seq<L.Trade>): Payload {
    Payload(0, PortfolioRecord(0, 0, 0, 0, 0, 0, 0, 0, 0, [], trades, [], 1), IDLE_RISK, None)
  }

  /** A state that saves and never loads: one trade more than a reader accepts. */
  lemma SavedButNeverLoads(config: RiskConfig, h: HashOrder, h': HashOrder)
    ensures var p := Logged(seq(1_000_001, _ => FLAT_TRADE));
            Save(p, true, h).Some? && Load(Save(p, true, h).value, false, config, h').Err?
  {
    var trades := seq(1_000_001, _ => FLAT_TRADE);
    assert |trades| == 1_000_001 && forall i :: 0 <= i < |trades| ==> ValidTrade(trades[i]);
    hide *;
    LongLogNeverLoads(trades, config, h, h');
  }

  lemma LongLogNeverLoads(trades: seq<L.Trade>, config: RiskConfig, h: HashOrder, h': HashOrder)
    requires |trades| > 1_000_000 && forall i :: 0 <= i < |trades| ==> ValidTrade(trades[i])
    ensures Save(Logged(trades), true, h).Some?
    ensures Load(Save(Logged(trades), true, h).value, false, config, h').Err?
  {
    hide *;
    LoggedIsValid(trades, h);
    LoggedShape(trades, h);
    LongLogCannotLoad(Logged(trades), false, config, h, h');
  }

  lemma LoggedShape(trades: seq<L.Trade>, h: HashOrder)
    ensures FitsPositions(Logged(trades).portfolio.positions) && Logged(trades).portfolio.tradeLog == trades
    ensures Valid(Logged(trades), h) ==> Save(Logged(trades), true, h).Some?
  {
    hide Valid, Encode;
  }

  lemma LoggedIsValid(trades: seq<L.Trade>, h: HashOrder)
    requires forall i :: 0 <= i < |trades| ==> ValidTrade(trades[i])
    ensures Valid(Logged(trades), h)
  {
    hide ValidTrade, ToSnapshot, S.RestoreState, ValidPosition, ValidOrder;
    NothingRestores(Logged(trades).portfolio, h);
  }

  lemma NothingRestores(p: PortfolioRecord, h: HashOrder)
    requires p.positions == [] && p.cash == p.unrealized == p.totalEquity == p.maxEquity == p.totalFees == 0
    requires p.currentDrawdown == p.maxDrawdown == 0
    ensures S.RestoreState(ToSnapshot(p), h).Ok?
  {
    hide RealOf;
    ZeroIsZero();
    EmptyOrder(h);
  }

  lemma EmptyOrder(h: HashOrder)
    ensures h({}) == []
  {
    assert Lists(h({}), {});
    if h({}) != [] {
      FirstIsListed(h({}));
    }
  }

  lemma FirstIsListed(order: seq<string>)
    requires order != []
    ensures order[0] in order
  {
  }

  lemma ZeroIsZero()
    ensures RealOf(0) == 0.0
  {
    hide TwoTo;
    var exponent := 0 / 0x10_0000_0000_0000 % 2048;
    assert exponent == 0;
    var power := TwoTo((if exponent == 0 then 1 else exponent) - 1075);
    assert 0 as real * power == 0.0;
  }
}
