/**
 From a running ledger to a file and back: which ledgers can be saved, and what a restart gives.
 */
module LedgerRestart {
  import opened Wrappers
  import opened MachineWords
  import opened FinancialMath
  import opened SortedKeys
  import opened TableTotals
  import opened PortfolioLedger
  import opened LedgerConservation
  import opened ValuationOrder
  import opened LedgerHistory
  import B = ByteCodec
  import F = SnapshotFormat
  import E = SnapshotEnvelope
  import S = LedgerSnapshot
  import D = SnapshotLoading

  /** The portfolio record holds the ledger. */
  ghost predicate Records(p: F.PortfolioRecord, s: Ledger) {
    S.Recorded(D.ToSnapshot(p), s)
  }

  // ---------------------------------------------------------------------------
  // Which ledgers can be saved
  // ---------------------------------------------------------------------------

  /** Every logged trade was entered at a positive average price. */
  ghost predicate AllPriced(log: seq<Trade>) {
    forall t :: t in log ==> t.entryPrice > 0
  }

  /** The parts of the record that do not come from the ledger. */
  ghost predicate OtherPartsValid(p: F.PortfolioRecord) {
    && p.nextOrderId != 0 && B.IsFinite(p.currentDrawdown) && B.IsFinite(p.maxDrawdown)
    && (forall i :: 0 <= i < |p.pendingOrders| ==> D.ValidOrder(p.pendingOrders[i], p.nextOrderId))
    && (forall i, j :: 0 <= i < j < |p.pendingOrders| ==> p.pendingOrders[i].orderId != p.pendingOrders[j].orderId)
  }

  /** Whatever restores has valid positions with distinct symbols, so testing them first refuses nothing more. */
  lemma {:induction false} RestoredAreValid(persisted: seq<S.PositionSnapshot>)
    requires S.ReadPositions(persisted).Some?
    ensures forall i :: 0 <= i < |persisted| ==> D.ValidPosition(persisted[i])
    ensures forall i, j :: 0 <= i < j < |persisted| ==> persisted[i].symbol != persisted[j].symbol
    ensures forall i :: 0 <= i < |persisted| ==> persisted[i].symbol in S.ReadPositions(persisted).value
  {
    if persisted != [] {
      var n := |persisted| - 1;
      var front := persisted[..n];
      RestoredAreValid(front);
      assert forall i :: 0 <= i < n ==> persisted[i] == front[i];
    }
  }

  /**
   A ledger a run has reached can be saved if and only if every open position has a positive cost
   basis and average price, every logged trade has a positive entry price, and valuing the positions
   succeeds in the iteration order of the table restored for validation.
   */
  lemma SavableIff(ops: seq<(Operation, HashOrder)>, p: F.PortfolioRecord, h: HashOrder)
    requires Records(p, Run(INITIAL, ops))
    ensures var s := Run(INITIAL, ops);
            D.ValidPortfolio(p, h) <==>
              && OtherPartsValid(p) && S.AllRestorable(s.positions) && AllPriced(s.tradeLog)
              && ValueState(s.valuation, s.cash, s.positions, h).Some?
  {
    hide *;
    ReachedIsSound(ops);
    SavableLedgerIff(p, Run(INITIAL, ops), h);
  }

  lemma ReachedIsSound(ops: seq<(Operation, HashOrder)>)
    ensures Sound(Run(INITIAL, ops)) && Tallied(Run(INITIAL, ops))
  {
    InitialIsSound();
    RunConserves(INITIAL, ops);
    RunKeepsTallied(INITIAL, ops);
  }

  lemma SavableLedgerIff(p: F.PortfolioRecord, s: Ledger, h: HashOrder)
    requires Sound(s) && Tallied(s) && Records(p, s)
    ensures D.ValidPortfolio(p, h)
       <==> && OtherPartsValid(p) && S.AllRestorable(s.positions) && AllPriced(s.tradeLog)
            && ValueState(s.valuation, s.cash, s.positions, h).Some?
  {
    hide D.ValidPosition, D.ValidOrder, D.ValidTrade, B.IsFinite, ValueState, S.AllRestorable;
    RestoresIff(p, s, h);
    TradesAreValidIff(s.tradeLog);
    if S.AllRestorable(s.positions) {
      RestoredAreValid(p.positions);
    }
  }

  /** What the record takes from the ledger, and whether it restores. */
  lemma RestoresIff(p: F.PortfolioRecord, s: Ledger, h: HashOrder)
    requires Sound(s) && Tallied(s) && Records(p, s)
    ensures p.cash >= 0 && p.totalEquity >= 0 && p.maxEquity >= 0 && p.totalFees >= 0
    ensures p.tradeCount >= 0 && p.roundTripCount >= 0 && p.tradeLog == s.tradeLog
    ensures S.AllRestorable(s.positions) ==> S.ReadPositions(p.positions).Some?
    ensures S.RestoreState(D.ToSnapshot(p), h).Ok?
       <==> S.AllRestorable(s.positions) && ValueState(s.valuation, s.cash, s.positions, h).Some?
  {
    S.SnapshotPositions(s);
    S.RecordedRestores(D.ToSnapshot(p), s, h);
    hide D.RealOf, S.PersistAll, ValueState, S.AllRestorable, S.Close, S.RestoreState, S.ReadPositions;
    hide Valued, PositionSound, Settled;
  }

  lemma TradesAreValidIff(log: seq<Trade>)
    requires forall t :: t in log ==> Settled(t)
    ensures (forall i :: 0 <= i < |log| ==> D.ValidTrade(log[i])) <==> AllPriced(log)
  {
    if forall i :: 0 <= i < |log| ==> D.ValidTrade(log[i]) {
      forall t | t in log ensures t.entryPrice > 0 {
        var i :| 0 <= i < |log| && log[i] == t;
        assert D.ValidTrade(log[i]);
      }
    }
    if AllPriced(log) {
      forall i | 0 <= i < |log| ensures D.ValidTrade(log[i]) {
        assert log[i] in log && Settled(log[i]);
      }
    }
  }

  // ---------------------------------------------------------------------------
  // A ledger that can never be saved again
  // ---------------------------------------------------------------------------

  /** After a trade entered at no price has been logged, nothing that follows can be saved. */
  lemma UnpricedTradeStays(ops: seq<(Operation, HashOrder)>, more: seq<(Operation, HashOrder)>,
                           p: F.PortfolioRecord, h: HashOrder)
    requires !AllPriced(Run(INITIAL, ops).tradeLog) && Records(p, Run(INITIAL, ops + more))
    ensures !D.ValidPortfolio(p, h)
  {
    hide D.ValidPortfolio, Records, Run, OtherPartsValid, ValueState;
    LoggedForGood(ops, more);
    var log, later := Run(INITIAL, ops).tradeLog, Run(INITIAL, ops + more).tradeLog;
    var t :| t in log && t.entryPrice <= 0;
    assert t in later;
    SavableIff(ops + more, p, h);
  }

  /** Three units bought for one unit of money, two of them sold, and then the last. */
  function SellOut(h: HashOrder): seq<(Operation, HashOrder)> {
    [(Open(Order("X", 30_000_000, 0, 0, ""), 0, 3), h),
     (Operation.Close(Order("X", 50_000_000, 0, 0, ""), 2), h),
     (Operation.Close(Order("X", 50_000_000, 0, 0, ""), 1), h)]
  }

  lemma SellOutLeavesUnpriced(h: HashOrder)
    ensures Run(INITIAL, SellOut(h)).positions == map[] && !AllPriced(Run(INITIAL, SellOut(h)).tradeLog)
  {
    hide OpenLong, ClosePosition, AllPriced;
    var ops: seq<(Operation, HashOrder)> := SellOut(h);
    assert ops[..2][..1] == ops[..1] && ops[..1][..0] == [];
    S.BuyThree(h);
    var s1 := Step(INITIAL, ops[0].0, h);
    assert Run(INITIAL, ops[..1]) == s1;
    S.SellTwo(s1, h);
    var s2 := Step(s1, ops[1].0, h);
    assert Run(INITIAL, ops[..2]) == s2;
    SellLast(s2, h);
  }

  lemma SellLast(s: Ledger, h: HashOrder)
    requires s.positions == map["X" := S.REMAINDER] && s.cash == STARTING_CASH && s.totalFees == 0
    requires s.tradeCount == 2 && s.roundTripCount == 0
    ensures var sold := ClosePosition(s, Order("X", 50_000_000, 0, 0, ""), 1, h);
            sold.Ok? && sold.value.positions == map[] && !AllPriced(sold.value.tradeLog)
  {
    assert Notional(50_000_000, 1) == Some(1);
    assert Proportional(0, 1, 1) == Some(0);
    assert s.positions - {"X"} == map[];
    D.EmptyOrder(h);
    assert ValueState(s.valuation, STARTING_CASH + 1, map[], h).Some?;
    var sold := ClosePosition(s, Order("X", 50_000_000, 0, 0, ""), 1, h);
    var log := sold.value.tradeLog;
    assert log[|log| - 1].entryPrice == 0 && log[|log| - 1] in log;
  }

  /** The ledger is flat, and no run that goes on from it reaches one that can be saved. */
  lemma ReachableButNeverSavable(h: HashOrder, more: seq<(Operation, HashOrder)>, p: F.PortfolioRecord, h': HashOrder)
    requires Records(p, Run(INITIAL, SellOut(h) + more))
    ensures Run(INITIAL, SellOut(h)).positions == map[] && !D.ValidPortfolio(p, h')
  {
    hide D.ValidPortfolio, Records, Run, SellOut;
    SellOutLeavesUnpriced(h);
    UnpricedTradeStays(SellOut(h), more, p, h');
  }

  // ---------------------------------------------------------------------------
  // Through a file
  // ---------------------------------------------------------------------------

  /**
   A ledger a run has reached, recorded and saved, comes back from the file to the unit, under every
   iteration order in which the file loads at all; and it loads under every one if and only if the
   state lies within the reader's limits and all losses together fit into 64 bits.
   */
  lemma LedgerSurvivesRestart(ops: seq<(Operation, HashOrder)>, p: F.Payload, wantsExtended: bool,
                              config: D.RiskConfig, h: HashOrder)
    requires Records(p.portfolio, Run(INITIAL, ops)) && D.Save(p, true, h).Some?
    requires D.CanRestore(p.risk, config) && (wantsExtended ==> p.extended.Some?)
    ensures var s := Run(INITIAL, ops);
            var file := D.Save(p, true, h).value;
            && (forall h': HashOrder | D.Load(file, wantsExtended, config, h') == Ok(p) ::
                  S.RestoreState(D.ToSnapshot(p.portfolio), h')
                  == Ok(s.(valuation := D.ToSnapshot(p.portfolio).valuation)))
            && ((forall h': HashOrder :: D.Load(file, wantsExtended, config, h') == Ok(p)) <==>
                  && F.Fits(p) && |F.Encode(p)| <= E.MAX_PAYLOAD
                  && Total(s.positions, LossOf) >= -TWO63)
  {
    hide *;
    ReachedIsSound(ops);
    SavedIsSavable(p, Run(INITIAL, ops), h);
    ReachedLoadsIff(p, Run(INITIAL, ops), wantsExtended, config, h);
  }

  lemma SavedIsSavable(p: F.Payload, s: Ledger, h: HashOrder)
    requires Sound(s) && Tallied(s) && Records(p.portfolio, s) && D.Save(p, true, h).Some?
    ensures S.AllRestorable(s.positions)
  {
    hide D.ValidPortfolio, D.ValidRisk, D.ValidExtended, F.Encode, E.FileText, OtherPartsValid, AllPriced;
    SavableLedgerIff(p.portfolio, s, h);
  }

  /** A restorable ledger restores as itself in just those orders in which its positions can be valued. */
  lemma RestorableRestoresIff(p: F.PortfolioRecord, s: Ledger, h: HashOrder)
    requires Sound(s) && Tallied(s) && Records(p, s) && S.AllRestorable(s.positions)
    ensures S.RestoreState(D.ToSnapshot(p), h).Ok? <==> ValueState(s.valuation, s.cash, s.positions, h).Some?
    ensures S.RestoreState(D.ToSnapshot(p), h) in {Err(Overflow), Ok(s.(valuation := D.ToSnapshot(p).valuation))}
  {
    hide S.RestoreState, D.ToSnapshot, S.Recorded, S.AllRestorable, ValueState, Sound, Settled;
    S.RecordedRestores(D.ToSnapshot(p), s, h);
  }

  lemma ReachedLoadsIff(p: F.Payload, s: Ledger, wantsExtended: bool, config: D.RiskConfig, h: HashOrder)
    requires Sound(s) && Tallied(s) && Records(p.portfolio, s) && S.AllRestorable(s.positions)
    requires D.Save(p, true, h).Some? && D.CanRestore(p.risk, config) && (wantsExtended ==> p.extended.Some?)
    ensures var file := D.Save(p, true, h).value;
            && (forall h': HashOrder | D.Load(file, wantsExtended, config, h') == Ok(p) ::
                  S.RestoreState(D.ToSnapshot(p.portfolio), h')
                  == Ok(s.(valuation := D.ToSnapshot(p.portfolio).valuation)))
            && ((forall h': HashOrder :: D.Load(file, wantsExtended, config, h') == Ok(p)) <==>
                  && F.Fits(p) && |F.Encode(p)| <= E.MAX_PAYLOAD
                  && Total(s.positions, LossOf) >= -TWO63)
  {
    hide *;
    S.SoundIsMarkable(s);
    var file := D.Save(p, true, h).value;
    forall h': HashOrder
      ensures D.Load(file, wantsExtended, config, h') == Ok(p) <==>
                && F.Fits(p) && |F.Encode(p)| <= E.MAX_PAYLOAD
                && ValueState(s.valuation, s.cash, s.positions, h').Some?
      ensures S.RestoreState(D.ToSnapshot(p.portfolio), h').Ok? ==>
                S.RestoreState(D.ToSnapshot(p.portfolio), h')
                == Ok(s.(valuation := D.ToSnapshot(p.portfolio).valuation))
      ensures D.Load(file, wantsExtended, config, h') == Ok(p) ==>
                S.RestoreState(D.ToSnapshot(p.portfolio), h').Ok?
    {
      D.SavedStateLoads(p, wantsExtended, config, h, h');
      RestorableRestoresIff(p.portfolio, s, h');
    }
    assert D.Load(file, wantsExtended, config, h) == Ok(p) ==> F.Fits(p) && |F.Encode(p)| <= E.MAX_PAYLOAD;
    ValuedInEveryOrderIff(s.valuation, s.cash, s.positions);
  }
}
