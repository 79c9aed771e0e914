/**
 A restart of the whole running system: what saving captures, what a file must hold to be loaded,
 and what every component is left with.
 */
module RuntimeRestart {
  import opened Wrappers
  import opened MachineWords
  import opened SortedKeys
  import opened ByteCodec
  import opened SnapshotFormat
  import E = SnapshotEnvelope
  import D = SnapshotLoading
  import S = LedgerSnapshot
  import L = PortfolioLedger
  import C = LedgerConservation
  import LR = LedgerRestart

  /** The restorable state beside the ledger: pending orders, risk, regime, allocator and checkpoint. */
  datatype RuntimeState = RuntimeState(
    pendingOrders: seq<OrderRecord>,
    nextOrderId: u64,
    risk: RiskRecord,
    regime: RegimeRecord,
    phi: map<string, PhiState>,
    checkpoint: u64)

  /** What is written for a running system, with the regime and the allocator or without. */
  function Captured(ledger: PortfolioRecord, r: RuntimeState, extended: bool): Payload {
    Payload(r.checkpoint, ledger.(pendingOrders := r.pendingOrders, nextOrderId := r.nextOrderId), r.risk,
            if extended then Some(ExtendedRecord(r.regime, r.phi)) else None)
  }

  /** What a load leaves beside the ledger; regime and allocator only change when they are asked for. */
  function Overwritten(before: RuntimeState, p: Payload, wantsExtended: bool): RuntimeState
    requires wantsExtended ==> p.extended.Some?
  {
    RuntimeState(p.portfolio.pendingOrders, p.portfolio.nextOrderId, p.risk,
                 if wantsExtended then p.extended.value.regime else before.regime,
                 if wantsExtended then p.extended.value.phi else before.phi,
                 p.checkpoint)
  }

  /**
   A running system that is saved and loaded again comes back: whatever the other system was doing,
   its orders, risk, checkpoint and, when asked for, regime and allocator become the saved ones, and
   its ledger becomes the saved ledger.
   */
  lemma RestartRestores(ops: seq<(C.Operation, HashOrder)>, ledger: PortfolioRecord, r: RuntimeState,
                        before: RuntimeState, saved: bool, wanted: bool, config: D.RiskConfig, h: HashOrder,
                        h': HashOrder)
    requires LR.Records(ledger, C.Run(L.INITIAL, ops)) && (wanted ==> saved)
    requires D.Save(Captured(ledger, r, saved), true, h).Some? && D.CanRestore(r.risk, config)
    requires Fits(Captured(ledger, r, saved)) && |Encode(Captured(ledger, r, saved))| <= E.MAX_PAYLOAD
    requires S.RestoreState(D.ToSnapshot(ledger), h').Ok?
    ensures var s := C.Run(L.INITIAL, ops);
            var p := Captured(ledger, r, saved);
            && D.Load(D.Save(p, true, h).value, wanted, config, h') == Ok(p)
            && S.RestoreState(D.ToSnapshot(p.portfolio), h') == Ok(s.(valuation := D.ToSnapshot(ledger).valuation))
            && Overwritten(before, p, wanted)
               == (if wanted then r else r.(regime := before.regime, phi := before.phi))
  {
    var p := Captured(ledger, r, saved);
    assert D.ToSnapshot(p.portfolio) == D.ToSnapshot(ledger);
    hide D.Save, D.Load, D.ToSnapshot, S.RestoreState, Encode, Fits, D.CanRestore;
    D.SavedStateLoads(p, wanted, config, h, h');
    LR.LedgerSurvivesRestart(ops, p, wanted, config, h);
  }

  // ---------------------------------------------------------------------------
  // The number a double stands for
  // ---------------------------------------------------------------------------

  /** Powers of two, by their laws. */
  lemma TwoToStep(n: int)
    ensures D.TwoTo(0) == 1.0 && D.TwoTo(n + 1) == 2.0 * D.TwoTo(n) && D.TwoTo(n) > 0.0
    decreases if n < 0 then -n else n
  {
    if n < 0 {
      TwoToStep(n + 1);
    } else if n > 0 {
      TwoToStep(n - 1);
    }
  }

  lemma {:induction false} TwoToSum(m: int, n: nat)
    ensures D.TwoTo(m + n) == D.TwoTo(m) * D.TwoTo(n)
  {
    TwoToStep(m);
    if n > 0 {
      TwoToSum(m, n - 1);
      TwoToStep(n - 1);
      TwoToStep(m + n - 1);
      hide D.TwoTo;
      Doubled(D.TwoTo(m), D.TwoTo(n - 1));
    }
  }

  lemma Doubled(a: real, b: real)
    ensures 2.0 * (a * b) == a * (2.0 * b)
  {
  }

  lemma FractionBits()
    ensures D.TwoTo(52) == 4_503_599_627_370_496.0
  {
    assert D.TwoTo(13) == 8_192.0;
    hide D.TwoTo;
    TwoToSum(13, 13);
    TwoToSum(26, 26);
  }

  /** A number and its sign. */
  function Signed(negative: bool, magnitude: real): real {
    if negative then -magnitude else magnitude
  }

  function Product(x: real, y: real): real {
    x * y
  }

  lemma RealOfFields(bits: Double, exponent: nat, fraction: nat)
    requires exponent < 2048 && fraction < 0x10_0000_0000_0000
    requires bits % 0x8000_0000_0000_0000 == exponent * 0x10_0000_0000_0000 + fraction
    ensures var whole := if exponent == 0 then fraction else 0x10_0000_0000_0000 + fraction;
            var power := D.TwoTo((if exponent == 0 then 1 else exponent) - 1075);
            D.RealOf(bits) == Signed(bits >= 0x8000_0000_0000_0000, Product(whole as real, power))
  {
    DoubleFields(bits, exponent, fraction);
    hide D.TwoTo;
  }

  /**
   The number a double stands for (section 3.4 of IEEE 754): with a positive biased exponent one plus
   its fraction, times two to the exponent less the bias of 1023; with none its fraction alone, times
   two to the least exponent.
   */
  lemma DoubleIs(bits: Double, exponent: nat, fraction: nat)
    requires exponent < 2048 && fraction < 0x10_0000_0000_0000
    requires bits % 0x8000_0000_0000_0000 == exponent * 0x10_0000_0000_0000 + fraction
    ensures var part := fraction as real / 4_503_599_627_370_496.0;
            var magnitude := if exponent > 0 then Product(1.0 + part, D.TwoTo(exponent - 1023))
                             else Product(part, D.TwoTo(-1022));
            D.RealOf(bits) == Signed(bits >= 0x8000_0000_0000_0000, magnitude)
  {
    RealOfFields(bits, exponent, fraction);
    FractionBits();
    hide D.TwoTo, D.RealOf, Signed;
    var shift := (if exponent == 0 then 1 else exponent) - 1075;
    TwoToSum(shift, 52);
    Scaled(fraction, D.TwoTo(shift), D.TwoTo(shift + 52));
    hide Product;
  }

  lemma DoubleFields(bits: Double, exponent: nat, fraction: nat)
    requires exponent < 2048 && fraction < 0x10_0000_0000_0000
    requires bits % 0x8000_0000_0000_0000 == exponent * 0x10_0000_0000_0000 + fraction
    ensures bits / 0x10_0000_0000_0000 % 2048 == exponent && bits % 0x10_0000_0000_0000 == fraction
  {
    var sign := if bits >= 0x8000_0000_0000_0000 then 2048 else 0;
    assert bits == (sign + exponent) * 0x10_0000_0000_0000 + fraction;
    DivModUnique(bits, 0x10_0000_0000_0000, sign + exponent, fraction);
  }

  lemma Scaled(fraction: nat, small: real, large: real)
    requires large == small * 4_503_599_627_370_496.0
    ensures Product((0x10_0000_0000_0000 + fraction) as real, small)
         == Product(1.0 + fraction as real / 4_503_599_627_370_496.0, large)
    ensures Product(fraction as real, small) == Product(fraction as real / 4_503_599_627_370_496.0, large)
  {
    var part := fraction as real / 4_503_599_627_370_496.0;
    assert fraction as real == part * 4_503_599_627_370_496.0;
    assert (0x10_0000_0000_0000 + fraction) as real == (1.0 + part) * 4_503_599_627_370_496.0;
    Regrouped(part, 4_503_599_627_370_496.0, small);
    Regrouped(1.0 + part, 4_503_599_627_370_496.0, small);
  }

  lemma Regrouped(a: real, b: real, c: real)
    ensures Product(a * b, c) == Product(a, c * b)
  {
  }

  // ---------------------------------------------------------------------------
  // What a file must hold
  // ---------------------------------------------------------------------------

  /** Not an infinity and not a NaN: the eleven exponent bits are not all set. */
  predicate IsNumber(bits: Double) {
    bits % 0x8000_0000_0000_0000 < 0x7ff0_0000_0000_0000
  }

  predicate AreNumbers(values: seq<Double>) {
    forall i :: 0 <= i < |values| ==> IsNumber(values[i])
  }

  lemma IsNumberIff(bits: Double)
    ensures IsNumber(bits) <==> IsFinite(bits)
  {
    var high := bits / 0x10_0000_0000_0000;
    assert bits == high * 0x10_0000_0000_0000 + bits % 0x10_0000_0000_0000;
    assert high == high / 2048 * 2048 + high % 2048 && 0 <= high / 2048 <= 1;
  }

  lemma AreNumbersIff(values: seq<Double>)
    ensures AreNumbers(values) <==> D.AllFinite(values)
  {
    forall i | 0 <= i < |values| ensures IsNumber(values[i]) <==> IsFinite(values[i]) {
      IsNumberIff(values[i]);
    }
    hide IsNumber, IsFinite;
  }

  /** Every position, order and trade of the ledger part is well-formed and the ledger restores. */
  predicate LedgerAcceptable(p: PortfolioRecord, h: HashOrder) {
    && p.cash >= 0 && p.totalEquity >= 0 && p.maxEquity >= 0 && p.totalFees >= 0
    && p.tradeCount >= 0 && p.roundTripCount >= 0 && IsNumber(p.currentDrawdown) && IsNumber(p.maxDrawdown)
    && (forall q :: q in p.positions ==>
          && q.symbol != "" && q.quantity > 0 && q.entryPrice > 0 && q.isLong && q.entryFee >= 0 && q.costBasis > 0
          && q.lastMark > 0)
    && (forall i, j :: 0 <= i < j < |p.positions| ==> p.positions[i].symbol != p.positions[j].symbol)
    && (forall o :: o in p.pendingOrders ==> o.symbol != "" && 0 < o.orderId < p.nextOrderId)
    && (forall i, j :: 0 <= i < j < |p.pendingOrders| ==> p.pendingOrders[i].orderId != p.pendingOrders[j].orderId)
    && (forall t :: t in p.tradeLog ==>
          t.symbol != "" && t.entryPrice > 0 && t.exitPrice > 0 && t.quantity > 0 && t.totalFees >= 0)
    && p.nextOrderId > 0 && S.RestoreState(D.ToSnapshot(p), h).Ok?
  }

  /** Every number of the risk part is one, every name is given, and the matrix fits its symbols. */
  predicate RiskAcceptable(r: RiskRecord) {
    && AreNumbers([r.account.configuredVarLimit, r.account.totalDrawdown, r.account.dailyDrawdown, r.account.prevEquity,
                   r.history.currentVaR95, r.history.returnStdDev, r.limits.effectiveVarLimit])
    && AreNumbers(r.history.returnWindow) && AreNumbers(r.history.covarianceMatrix)
    && "" !in r.history.assetStates && "" !in r.limits.syncedPositions
    && (forall k :: k in r.history.assetStates ==>
          && AreNumbers(r.history.assetStates[k].returnWindow)
          && AreNumbers([r.history.assetStates[k].prevPrice, r.history.assetStates[k].positionValue]))
    && (forall k :: k in r.limits.syncedPositions ==> IsNumber(r.limits.syncedPositions[k]))
    && (|r.history.covarianceMatrix| == 0
        || |r.history.covarianceMatrix| == |r.history.assetOrder| * |r.history.assetOrder|)
    && (forall i :: 0 <= i < |r.history.assetOrder| ==> r.history.assetOrder[i] in r.history.assetStates)
  }

  predicate ExtendedAcceptable(e: ExtendedRecord) {
    && AreNumbers([e.regime.smoothTR, e.regime.smoothDMPlus, e.regime.smoothDMMinus, e.regime.adx, e.regime.prevClose,
                   e.regime.variance, e.regime.prevHigh, e.regime.prevLow])
    && AreNumbers(e.regime.returnWindow)
    && "" !in e.phi && (forall k :: k in e.phi ==> IsNumber(e.phi[k].phi) && AreNumbers(e.phi[k].pnlWindow))
  }

  /** The risk part was saved under the same configuration and its limits in force are no looser. */
  predicate SameConfiguration(r: RiskRecord, config: D.RiskConfig) {
    && r.account.configuredMaxPositions == config.maxPositions && r.account.configuredVarWindow == config.varWindow
    && D.RealOf(r.account.configuredVarLimit) == D.RealOf(config.varLimit)
    && r.limits.effectiveMaxPositions <= config.maxPositions
    && D.RealOf(r.limits.effectiveVarLimit) <= D.RealOf(config.varLimit)
  }

  lemma LedgerValidIff(p: PortfolioRecord, h: HashOrder)
    ensures D.ValidPortfolio(p, h) <==> LedgerAcceptable(p, h)
  {
    IsNumberIff(p.currentDrawdown);
    IsNumberIff(p.maxDrawdown);
    hide IsNumber, IsFinite, S.RestoreState, D.ToSnapshot;
  }

  lemma RiskValidIff(r: RiskRecord)
    ensures D.ValidRisk(r) <==> RiskAcceptable(r)
  {
    var single := [r.account.configuredVarLimit, r.account.totalDrawdown, r.account.dailyDrawdown, r.account.prevEquity,
                   r.history.currentVaR95, r.history.returnStdDev, r.limits.effectiveVarLimit];
    AreNumbersIff(single);
    SevenFinite(single);
    AreNumbersIff(r.history.returnWindow);
    AreNumbersIff(r.history.covarianceMatrix);
    forall k | k in r.history.assetStates
      ensures D.ValidAsset(r.history.assetStates[k]) <==>
                && AreNumbers(r.history.assetStates[k].returnWindow)
                && AreNumbers([r.history.assetStates[k].prevPrice, r.history.assetStates[k].positionValue])
    {
      AssetValidIff(r.history.assetStates[k]);
    }
    forall k | k in r.limits.syncedPositions
      ensures IsNumber(r.limits.syncedPositions[k]) <==> IsFinite(r.limits.syncedPositions[k])
    {
      IsNumberIff(r.limits.syncedPositions[k]);
    }
    hide IsNumber, IsFinite, AreNumbers, D.AllFinite, D.ValidAsset;
  }

  lemma AssetValidIff(a: AssetState)
    ensures D.ValidAsset(a) <==> AreNumbers(a.returnWindow) && AreNumbers([a.prevPrice, a.positionValue])
  {
    AreNumbersIff(a.returnWindow);
    AreNumbersIff([a.prevPrice, a.positionValue]);
    hide AreNumbers, IsFinite;
    assert a.prevPrice in [a.prevPrice, a.positionValue] && a.positionValue in [a.prevPrice, a.positionValue];
  }

  lemma SevenFinite(v: seq<Double>)
    requires |v| == 7
    ensures D.AllFinite(v) <==> && IsFinite(v[0]) && IsFinite(v[1]) && IsFinite(v[2]) && IsFinite(v[3])
                                && IsFinite(v[4]) && IsFinite(v[5]) && IsFinite(v[6])
  {
    hide IsFinite;
  }

  lemma ExtendedValidIff(e: ExtendedRecord)
    ensures D.ValidExtended(e) <==> ExtendedAcceptable(e)
  {
    var s := e.regime;
    var single := [s.smoothTR, s.smoothDMPlus, s.smoothDMMinus, s.adx, s.prevClose, s.variance, s.prevHigh, s.prevLow];
    AreNumbersIff(single);
    SevenFinite(single[..7]);
    assert D.AllFinite(single) <==> D.AllFinite(single[..7]) && IsFinite(single[7]) by {
      hide IsFinite;
      assert single == single[..7] + [single[7]];
    }
    AreNumbersIff(s.returnWindow);
    forall k | k in e.phi
      ensures IsNumber(e.phi[k].phi) <==> IsFinite(e.phi[k].phi)
      ensures AreNumbers(e.phi[k].pnlWindow) <==> D.AllFinite(e.phi[k].pnlWindow)
    {
      IsNumberIff(e.phi[k].phi);
      AreNumbersIff(e.phi[k].pnlWindow);
    }
    hide IsNumber, IsFinite, AreNumbers, D.AllFinite;
  }

  /**
   A file loads as a state if and only if its payload decodes to that state, the state has what is
   asked for, every part is acceptable, and the configuration is the running one.
   */
  lemma LoadsIff(json: string, p: Payload, wanted: bool, config: D.RiskConfig, h: HashOrder)
    ensures D.Load(json, wanted, config, h) == Ok(p) <==>
              && (exists bytes :: E.LoadBytes(json) == Ok(bytes) && Decode(bytes) == Some(p))
              && (wanted ==> p.extended.Some?)
              && LedgerAcceptable(p.portfolio, h) && RiskAcceptable(p.risk) && SameConfiguration(p.risk, config)
              && (p.extended.Some? ==> ExtendedAcceptable(p.extended.value))
  {
    LoadIsChecked(json, p, wanted, config, h);
    hide D.Load, E.LoadBytes, Decode, D.ValidPortfolio, D.ValidRisk, D.ValidExtended, D.RealOf;
    hide LedgerAcceptable, RiskAcceptable, ExtendedAcceptable;
    LedgerValidIff(p.portfolio, h);
    RiskValidIff(p.risk);
    if p.extended.Some? {
      ExtendedValidIff(p.extended.value);
    }
  }

  lemma LoadIsChecked(json: string, p: Payload, wanted: bool, config: D.RiskConfig, h: HashOrder)
    ensures D.Load(json, wanted, config, h) == Ok(p) <==>
              && (exists bytes :: E.LoadBytes(json) == Ok(bytes) && Decode(bytes) == Some(p))
              && (wanted ==> p.extended.Some?)
              && D.ValidPortfolio(p.portfolio, h) && D.ValidRisk(p.risk) && D.CanRestore(p.risk, config)
              && (p.extended.Some? ==> D.ValidExtended(p.extended.value))
  {
    hide E.LoadBytes, Decode, D.ValidPortfolio, D.ValidRisk, D.ValidExtended, D.CanRestore;
    assert E.LoadBytes(json).Ok? ==> E.LoadBytes(json) == Ok(E.LoadBytes(json).value);
  }
}
