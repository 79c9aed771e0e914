/**
 Persisting the ledger: what a snapshot holds, when restoring one succeeds, and what restoring a
 snapshot of a sound ledger gives in one, in every and in some iteration order of its table.
 */
module LedgerSnapshot {
  import opened Wrappers
  import opened MachineWords
  import opened FinancialMath
  import opened SortedKeys
  import opened TableTotals
  import opened PortfolioLedger
  import opened LedgerConservation
  import opened ValuationOrder

  datatype PositionSnapshot = PositionSnapshot(
    symbol: string,
    quantity: Quantity,
    entryPrice: Price,
    isLong: bool,
    entryTimestamp: u64,
    entryFee: Money,
    costBasis: Money,
    lastMark: Price,
    strategyId: string)

  datatype Snapshot = Snapshot(
    cash: Money,
    positions: seq<PositionSnapshot>,
    valuation: Valuation,
    tradeCount: int,
    totalFees: Money,
    tradeLog: seq<Trade>,
    roundTripCount: int)

  const DRAWDOWN_TOLERANCE := 0.000000000001

  function Persist(symbol: string, p: Position): PositionSnapshot {
    PositionSnapshot(symbol, p.quantity, p.averageEntry, true, p.entryTimestamp, p.entryFee,
                     p.costBasis, p.lastMark, p.strategyId)
  }

  function PersistAll(positions: map<string, Position>, order: seq<string>): seq<PositionSnapshot>
    requires forall k :: k in order ==> k in positions
  {
    seq(|order|, i requires 0 <= i < |order| => assert order[i] in order; Persist(order[i], positions[order[i]]))
  }

  /** The complete persisted state; positions are listed by ascending symbol. */
  function SnapshotState(s: Ledger): Snapshot {
    Snapshot(s.cash, PersistAll(s.positions, Sorted(s.positions.Keys)), s.valuation,
             s.tradeCount, s.totalFees, s.tradeLog, s.roundTripCount)
  }

  predicate Restorable(p: PositionSnapshot) {
    && p.symbol != "" && p.isLong
    && p.quantity > 0 && p.entryPrice > 0 && p.entryFee >= 0 && p.costBasis > 0 && p.lastMark > 0
    && AveragePrice(p.costBasis, p.quantity) == Some(p.entryPrice)
  }

  function Revive(p: PositionSnapshot): Position {
    Position(p.quantity, p.entryPrice, p.costBasis, p.lastMark, p.entryTimestamp, p.entryFee, p.strategyId)
  }

  function ReadPositions(persisted: seq<PositionSnapshot>): Option<map<string, Position>> {
    if persisted == [] then Some(map[])
    else
      var last := persisted[|persisted| - 1];
      var positions :- ReadPositions(persisted[..|persisted| - 1]);
      if !Restorable(last) || last.symbol in positions then None
      else Some(positions[last.symbol := Revive(last)])
  }

  predicate Close(a: real, b: real) {
    -DRAWDOWN_TOLERANCE <= a - b <= DRAWDOWN_TOLERANCE
  }

  predicate SameValuation(computed: Valuation, persisted: Valuation) {
    && computed.unrealized == persisted.unrealized
    && computed.totalEquity == persisted.totalEquity
    && computed.maxEquity == persisted.maxEquity
    && Close(computed.currentDrawdown, persisted.currentDrawdown)
    && Close(computed.maxDrawdown, persisted.maxDrawdown)
  }

  /** The ledger a snapshot restores to. Nothing of the ledger being overwritten takes part. */
  function RestoreState(snapshot: Snapshot, h: HashOrder): Result<Ledger, LedgerError> {
    if snapshot.cash < 0 || snapshot.valuation.totalEquity < 0
       || snapshot.valuation.maxEquity < 0 || snapshot.totalFees < 0 then Err(InvalidArgument)
    else
      var positions :- Require(ReadPositions(snapshot.positions), InvalidArgument);
      var valuation :- Require(ValueState(snapshot.valuation, snapshot.cash, positions, h), Overflow);
      if !SameValuation(valuation, snapshot.valuation) then Err(InvalidArgument)
      else Ok(Ledger(snapshot.cash, positions, snapshot.valuation, snapshot.tradeCount,
                     snapshot.totalFees, snapshot.tradeLog, snapshot.roundTripCount))
  }

  // ---------------------------------------------------------------------------
  // Positions round trip
  // ---------------------------------------------------------------------------

  ghost predicate AllRestorable(positions: map<string, Position>) {
    forall k :: k in positions ==> positions[k].costBasis > 0 && positions[k].averageEntry > 0
  }

  ghost function Restrict(positions: map<string, Position>, order: seq<string>): map<string, Position> {
    map k | k in positions && k in order :: positions[k]
  }

  lemma PersistedIsRestorable(k: string, p: Position)
    requires k != "" && PositionSound(p)
    ensures Restorable(Persist(k, p)) <==> p.costBasis > 0 && p.averageEntry > 0
    ensures Revive(Persist(k, p)) == p
  {
  }

  lemma {:induction false} PositionsRoundTrip(positions: map<string, Position>, order: seq<string>)
    requires "" !in positions && forall k :: k in positions ==> PositionSound(positions[k])
    requires (forall k :: k in order ==> k in positions) && Distinct(order)
    ensures ReadPositions(PersistAll(positions, order)) ==
              if AllRestorable(Restrict(positions, order)) then Some(Restrict(positions, order)) else None
  {
    hide AveragePrice, Restorable, PositionSound, Restrict, AllRestorable;
    if order == [] {
      EmptyRestrict(positions);
    } else {
      var n := |order| - 1;
      var front, last := order[..n], order[n];
      assert order == front + [last] && last in order && last !in front;
      PositionsRoundTrip(positions, front);
      PersistedIsRestorable(last, positions[last]);
      PersistStep(positions, front, last);
      RestrictStep(positions, front, last);
    }
  }

  lemma EmptyRestrict(positions: map<string, Position>)
    ensures Restrict(positions, []) == map[] && AllRestorable(Restrict(positions, []))
  {
  }

  lemma PersistStep(positions: map<string, Position>, front: seq<string>, last: string)
    requires last in positions && forall k :: k in front ==> k in positions
    ensures PersistAll(positions, front + [last]) == PersistAll(positions, front) + [Persist(last, positions[last])]
  {
  }

  lemma RestrictStep(positions: map<string, Position>, front: seq<string>, last: string)
    requires last in positions && last !in front
    ensures last !in Restrict(positions, front)
    ensures Restrict(positions, front + [last]) == Restrict(positions, front)[last := positions[last]]
    ensures AllRestorable(Restrict(positions, front + [last])) <==>
              && AllRestorable(Restrict(positions, front))
              && positions[last].costBasis > 0 && positions[last].averageEntry > 0
  {
    var before, after := Restrict(positions, front), Restrict(positions, front + [last]);
    assert after == before[last := positions[last]];
    assert after[last] == positions[last];
    assert forall k :: k in before ==> k in after && after[k] == before[k];
    assert forall k :: k in after ==> k == last || k in before;
  }

  // ---------------------------------------------------------------------------
  // Round trips
  // ---------------------------------------------------------------------------

  lemma SoundIsMarkable(s: Ledger)
    requires Sound(s)
    ensures AllMarkable(s.positions) && WorthFits(s.cash, s.positions)
    ensures Total(s.positions, GainOf) == s.valuation.unrealized
  {
    hide Notional, AveragePrice;
    forall k | k in s.positions ensures Markable(s.positions[k]) {
      NotionalPositive(s.positions[k].lastMark, s.positions[k].quantity);
    }
    var order := Sorted(s.positions.Keys);
    SortedIsAscending(s.positions.Keys);
    TotalAlongIsTotal(order, s.positions.Keys, s.positions, GainOf);
    TotalAlongIsTotal(order, s.positions.Keys, s.positions, MarkOf);
    TotalAlongIsTotal(order, s.positions.Keys, s.positions, CostOf);
    GainIsMarkLessCost(s.positions, order);
  }

  lemma SnapshotPositions(s: Ledger)
    requires Sound(s)
    ensures ReadPositions(SnapshotState(s).positions) == if AllRestorable(s.positions) then Some(s.positions) else None
    ensures s.valuation.totalEquity >= 0 && s.valuation.maxEquity >= 0
  {
    hide Notional, AveragePrice, ReadPositions, PersistAll, Restrict;
    var order := Sorted(s.positions.Keys);
    SortedIsAscending(s.positions.Keys);
    PositionsRoundTrip(s.positions, order);
    RestrictToAll(s.positions, order);
    SoundIsMarkable(s);
    TotalNonNegative(s.positions.Keys, s.positions, MarkOf);
  }

  /** The snapshot holds the ledger to the unit, and its two drawdowns as closely as restoring asks. */
  ghost predicate Recorded(snapshot: Snapshot, s: Ledger) {
    && snapshot == SnapshotState(s).(valuation := snapshot.valuation)
    && snapshot.valuation == s.valuation.(currentDrawdown := snapshot.valuation.currentDrawdown,
                                          maxDrawdown := snapshot.valuation.maxDrawdown)
    && Close(snapshot.valuation.currentDrawdown, s.valuation.currentDrawdown)
    && Close(snapshot.valuation.maxDrawdown, s.valuation.maxDrawdown)
  }

  /** Valuing what was recorded gives the recorded valuation again, in every order in which it succeeds. */
  lemma RevaluesTheSame(snapshot: Snapshot, s: Ledger, h: HashOrder)
    requires Sound(s) && Recorded(snapshot, s)
    ensures var again := ValueState(snapshot.valuation, s.cash, s.positions, h);
            && (again.Some? <==> ValueState(s.valuation, s.cash, s.positions, h).Some?)
            && (again.Some? ==> SameValuation(again.value, snapshot.valuation))
  {
    hide Notional, AveragePrice, Accumulate, Drawdown, SnapshotState;
    if ValueState(s.valuation, s.cash, s.positions, h).Some? {
      ValueStateIsExact(s.valuation, s.cash, s.positions, h);
    }
  }

  /**
   Restoring what was recorded of a sound ledger gives the ledger back if the fees paid are not
   negative, every open position has a positive cost basis and average price, and valuing the
   positions succeeds; it fails otherwise, with the error of the first of these that does not hold.
   Rounding the two drawdowns costs nothing else.
   */
  lemma RecordedRestores(snapshot: Snapshot, s: Ledger, h: HashOrder)
    requires Sound(s) && Recorded(snapshot, s)
    ensures RestoreState(snapshot, h) ==
              if s.totalFees < 0 || !AllRestorable(s.positions) then Err(InvalidArgument)
              else if ValueState(s.valuation, s.cash, s.positions, h) == None then Err(Overflow)
              else Ok(s.(valuation := snapshot.valuation))
  {
    SnapshotPositions(s);
    RevaluesTheSame(snapshot, s, h);
    hide ValueState, ReadPositions, PersistAll, AllRestorable, SameValuation, Close, Valued, PositionSound;
  }

  /** The same for the snapshot that a ledger takes of itself. */
  lemma SnapshotRoundTrip(s: Ledger, h: HashOrder)
    requires Sound(s)
    ensures RestoreState(SnapshotState(s), h) ==
              if s.totalFees < 0 || !AllRestorable(s.positions) then Err(InvalidArgument)
              else if ValueState(s.valuation, s.cash, s.positions, h) == None then Err(Overflow)
              else Ok(s)
  {
    hide ValueState, RestoreState, AllRestorable, PersistAll, Sound;
    RecordedRestores(SnapshotState(s), s, h);
  }

  /**
   The ledger comes back in every iteration order of its table if and only if, besides, all losses
   together fit into 64 bits. Without that it still comes back in some order.
   */
  lemma SnapshotRoundTripOrders(s: Ledger)
    requires Sound(s)
    ensures (forall h: HashOrder :: RestoreState(SnapshotState(s), h) == Ok(s))
       <==> s.totalFees >= 0 && AllRestorable(s.positions) && Total(s.positions, LossOf) >= -TWO63
    ensures (exists h: HashOrder :: RestoreState(SnapshotState(s), h) == Ok(s))
       <==> s.totalFees >= 0 && AllRestorable(s.positions)
  {
    hide ValueState, RestoreState, SnapshotState, AllRestorable, GainOf, LossOf, WorthFits, AllMarkable;
    SoundIsMarkable(s);
    forall h: HashOrder
      ensures RestoreState(SnapshotState(s), h) == Ok(s)
         <==> && s.totalFees >= 0 && AllRestorable(s.positions)
              && ValueState(s.valuation, s.cash, s.positions, h).Some?
    {
      SnapshotRoundTrip(s, h);
    }
    ValuedInEveryOrderIff(s.valuation, s.cash, s.positions);
    ValuedInSomeOrderIff(s.valuation, s.cash, s.positions);
    SomeOrderRestores(s);
  }

  lemma SomeOrderRestores(s: Ledger)
    requires Sound(s)
    requires exists h: HashOrder :: ValueState(s.valuation, s.cash, s.positions, h).Some?
    ensures s.totalFees >= 0 && AllRestorable(s.positions) ==>
              exists h: HashOrder :: RestoreState(SnapshotState(s), h) == Ok(s)
  {
    hide ValueState, RestoreState, SnapshotState, AllRestorable;
    var h: HashOrder :| ValueState(s.valuation, s.cash, s.positions, h).Some?;
    SnapshotRoundTrip(s, h);
    assert s.totalFees >= 0 && AllRestorable(s.positions) ==> RestoreState(SnapshotState(s), h) == Ok(s);
  }

  lemma RestrictToAll(positions: map<string, Position>, order: seq<string>)
    requires Lists(order, positions.Keys)
    ensures Restrict(positions, order) == positions
  {
  }

  ghost predicate Restored(k: string, p: Position) {
    k != "" && PositionSound(p) && p.costBasis > 0 && p.averageEntry > 0
  }

  lemma RevivedIsRestored(p: PositionSnapshot)
    requires Restorable(p)
    ensures Restored(p.symbol, Revive(p)) && Persist(p.symbol, Revive(p)) == p
  {
  }

  lemma {:induction false} ReadPositionsAreSound(persisted: seq<PositionSnapshot>)
    requires ReadPositions(persisted).Some?
    ensures forall k :: k in ReadPositions(persisted).value ==>
              && Restored(k, ReadPositions(persisted).value[k])
              && exists i :: 0 <= i < |persisted| && persisted[i].symbol == k
  {
    hide AveragePrice, Restorable, Restored;
    if persisted != [] {
      var n := |persisted| - 1;
      ReadPositionsAreSound(persisted[..n]);
      RevivedIsRestored(persisted[n]);
      forall k | k in ReadPositions(persisted).value
        ensures exists i :: 0 <= i < |persisted| && persisted[i].symbol == k
      {
        if k in ReadPositions(persisted[..n]).value {
          var i :| 0 <= i < n && persisted[..n][i].symbol == k;
          assert persisted[i].symbol == k;
        } else {
          assert persisted[n].symbol == k;
        }
      }
    }
  }

  lemma {:induction false} ReadPositionsKeepsEntry(persisted: seq<PositionSnapshot>, i: nat)
    requires ReadPositions(persisted).Some? && i < |persisted|
    ensures var positions := ReadPositions(persisted).value;
            && persisted[i].symbol in positions
            && Persist(persisted[i].symbol, positions[persisted[i].symbol]) == persisted[i]
  {
    hide AveragePrice, Restorable;
    var n := |persisted| - 1;
    if i < n {
      ReadPositionsKeepsEntry(persisted[..n], i);
    } else {
      RevivedIsRestored(persisted[n]);
    }
  }

  ghost function Symbols(persisted: seq<PositionSnapshot>): seq<string> {
    seq(|persisted|, i requires 0 <= i < |persisted| => persisted[i].symbol)
  }

  lemma RestoredSymbols(persisted: seq<PositionSnapshot>)
    requires ReadPositions(persisted).Some? && Ascending(Symbols(persisted))
    ensures Sorted(ReadPositions(persisted).value.Keys) == Symbols(persisted)
  {
    hide Restorable, Restored, ReadPositions;
    var positions := ReadPositions(persisted).value;
    ReadPositionsAreSound(persisted);
    forall k ensures k in Symbols(persisted) <==> k in positions {
      if k in Symbols(persisted) {
        var i :| 0 <= i < |persisted| && Symbols(persisted)[i] == k;
        ReadPositionsKeepsEntry(persisted, i);
      }
      if k in positions {
        var i :| 0 <= i < |persisted| && persisted[i].symbol == k;
        assert Symbols(persisted)[i] == k;
      }
    }
    SortedIsAscending(positions.Keys);
    AscendingIsUnique(Symbols(persisted), Sorted(positions.Keys));
  }

  /** Taking a snapshot of a restored ledger gives back the snapshot it was restored from. */
  lemma RestoreThenSnapshot(snapshot: Snapshot, h: HashOrder)
    requires RestoreState(snapshot, h).Ok? && Ascending(Symbols(snapshot.positions))
    ensures SnapshotState(RestoreState(snapshot, h).value) == snapshot
  {
    hide ValueState, Restorable, Restored, ReadPositions;
    var persisted := snapshot.positions;
    var positions := ReadPositions(persisted).value;
    RestoredSymbols(persisted);
    var again := PersistAll(positions, Sorted(positions.Keys));
    forall i | 0 <= i < |persisted| ensures again[i] == persisted[i] {
      ReadPositionsKeepsEntry(persisted, i);
      assert Symbols(persisted)[i] == persisted[i].symbol;
    }
    assert again == persisted;
  }

  /** A restored ledger has sound books: its positions, cash and valuation agree to the unit. */
  lemma RestoredBooksAgree(snapshot: Snapshot, h: HashOrder)
    requires RestoreState(snapshot, h).Ok? && snapshot.valuation.maxDrawdown >= 0.0
    ensures var s := RestoreState(snapshot, h).value;
            && s.cash >= 0 && "" !in s.positions
            && (forall k :: k in s.positions ==> PositionSound(s.positions[k]))
            && s.valuation.unrealized == Total(s.positions, MarkOf) - Total(s.positions, CostOf)
            && s.valuation.totalEquity == s.cash + Total(s.positions, MarkOf)
            && s.valuation.totalEquity <= s.valuation.maxEquity
            && Close(Drawdown(s.valuation.maxEquity, s.valuation.totalEquity), s.valuation.currentDrawdown)
  {
    hide Notional, AveragePrice, ValueState;
    var positions := ReadPositions(snapshot.positions).value;
    ReadPositionsAreSound(snapshot.positions);
    ValueStateIsExact(snapshot.valuation, snapshot.cash, positions, h);
    forall k | k in positions ensures PositionSound(positions[k]) && k != "" {
      assert Restored(k, positions[k]);
    }
  }

  lemma ValuedAreMarkable(before: Valuation, cash: Money, positions: map<string, Position>, h: HashOrder)
    requires ValueState(before, cash, positions, h).Some?
    requires forall k :: k in positions ==> PositionSound(positions[k])
    ensures AllMarkable(positions)
  {
    hide Notional, AveragePrice;
    assert Lists(h(positions.Keys), positions.Keys);
    AccumulateIsTotal(positions, h(positions.Keys));
    forall k | k in positions ensures Markable(positions[k]) {
      NotionalPositive(positions[k].lastMark, positions[k].quantity);
    }
  }

  /**
   A snapshot accepted in one iteration order is accepted in every other, with the same result, if
   and only if all losses together fit into 64 bits.
   */
  lemma RestoresInEveryOrderIff(snapshot: Snapshot, h: HashOrder)
    requires RestoreState(snapshot, h).Ok?
    ensures (forall h': HashOrder :: RestoreState(snapshot, h') == RestoreState(snapshot, h))
       <==> Total(RestoreState(snapshot, h).value.positions, LossOf) >= -TWO63
  {
    hide ValueState, ReadPositions, Close, GainOf, LossOf, WorthFits, Markable;
    var positions := ReadPositions(snapshot.positions).value;
    ReadPositionsAreSound(snapshot.positions);
    assert forall k :: k in positions ==> Restored(k, positions[k]);
    ValuedAreMarkable(snapshot.valuation, snapshot.cash, positions, h);
    ValuedInEveryOrderIff(snapshot.valuation, snapshot.cash, positions);
    ValuedIff(snapshot.valuation, snapshot.cash, positions, h);
    assert ValueState(snapshot.valuation, snapshot.cash, positions, h).Some?;
    forall h': HashOrder
      ensures RestoreState(snapshot, h') == RestoreState(snapshot, h)
         <==> ValueState(snapshot.valuation, snapshot.cash, positions, h').Some?
    {
      if ValueState(snapshot.valuation, snapshot.cash, positions, h').Some? {
        ValuationIsUnique(snapshot.valuation, snapshot.cash, positions, h, h');
      }
    }
  }

  const SUNK := PositionSnapshot("A", 100_000_000, 7_000_000_000_000_000_000, true, 0, 0,
                                 7_000_000_000_000_000_000, 1, "")
  const RISEN := PositionSnapshot("C", 100_000_000, 1, true, 0, 0, 1, 8_000_000_000_000_000_000, "")

  /** Two positions that lost seven units and one that gained eight, in units of ten to the eighteenth. */
  const LOPSIDED := Snapshot(
    0, [SUNK, SUNK.(symbol := "B"), RISEN],
    Valuation(-5_999_999_999_999_999_999, 8_000_000_000_000_000_002, 8_000_000_000_000_000_002, 0.0, 0.0),
    3, 0, [], 0)

  ghost const THREE := map["A" := Revive(SUNK), "B" := Revive(SUNK), "C" := Revive(RISEN)]

  lemma ThreeAreRead()
    ensures ReadPositions(LOPSIDED.positions) == Some(THREE)
  {
    hide AveragePrice;
    assert AveragePrice(SUNK.costBasis, SUNK.quantity) == Some(SUNK.entryPrice) by {
      hide *;
      LopsidedAverages();
    }
    assert AveragePrice(RISEN.costBasis, RISEN.quantity) == Some(RISEN.entryPrice) by {
      hide *;
      LopsidedAverages();
    }
    var list := LOPSIDED.positions;
    assert list[..2] == [SUNK, SUNK.(symbol := "B")] && list[..2][..1] == [SUNK] && [SUNK][..0] == [];
    assert ReadPositions([SUNK]) == Some(map["A" := Revive(SUNK)]);
    assert ReadPositions(list[..2]) == Some(map["A" := Revive(SUNK), "B" := Revive(SUNK)]);
  }

  lemma LopsidedAverages()
    ensures AveragePrice(SUNK.costBasis, SUNK.quantity) == Some(SUNK.entryPrice)
    ensures AveragePrice(RISEN.costBasis, RISEN.quantity) == Some(RISEN.entryPrice)
    ensures MarkOf(Revive(SUNK)) == 1 && MarkOf(Revive(RISEN)) == 8_000_000_000_000_000_000
    ensures Markable(Revive(SUNK)) && Markable(Revive(RISEN))
  {
  }

  lemma TotalOfThree(f: Position -> int)
    ensures Total(THREE, f) == 2 * f(Revive(SUNK)) + f(Revive(RISEN))
  {
    var none: map<string, Position> := map[];
    var one := none["A" := Revive(SUNK)];
    var two := one["B" := Revive(SUNK)];
    assert THREE == two["C" := Revive(RISEN)];
    TotalInsert(none, "A", Revive(SUNK), f);
    TotalInsert(one, "B", Revive(SUNK), f);
    TotalInsert(two, "C", Revive(RISEN), f);
  }

  /** One snapshot restores in one iteration order and overflows in another. */
  lemma OrderDecidesRestore()
    ensures exists h: HashOrder, h': HashOrder ::
              RestoreState(LOPSIDED, h).Ok? && RestoreState(LOPSIDED, h') == Err(Overflow)
  {
    hide Accumulate, ReadPositions, Notional, AveragePrice, MarkOf;
    ThreeAreRead();
    LopsidedAverages();
    TotalOfThree(MarkOf);
    TotalOfThree(CostOf);
    TotalOfThree(GainOf);
    TotalOfThree(LossOf);
    var v := LOPSIDED.valuation;
    ValuedInSomeOrderIff(v, 0, THREE);
    ValuedInEveryOrderIff(v, 0, THREE);
    var h: HashOrder :| ValueState(v, 0, THREE, h).Some?;
    var h': HashOrder :| ValueState(v, 0, THREE, h') == None;
    ValueStateIsExact(v, 0, THREE, h);
    assert RestoreState(LOPSIDED, h).Ok?;
    assert RestoreState(LOPSIDED, h') == Err(Overflow);
  }

  // ---------------------------------------------------------------------------
  // A ledger that cannot be restored is reachable
  // ---------------------------------------------------------------------------

  lemma SingleOrder(h: HashOrder, k: string)
    ensures h({k}) == [k]
  {
    var order := h({k});
    assert Lists(order, {k});
    assert k in order;
    OnlyOne(order, k);
  }

  lemma OnlyOne(order: seq<string>, k: string)
    requires Distinct(order) && k in order && forall other :: other in order ==> other == k
    ensures order == [k]
  {
    assert order[0] in order;
    if |order| > 1 {
      FirstTwoDiffer(order);
      assert false;
    }
  }

  lemma FirstTwoDiffer(order: seq<string>)
    requires Distinct(order) && |order| > 1
    ensures order[0] != order[1] && order[0] in order && order[1] in order
  {
  }

  lemma SingleValuation(before: Valuation, cash: Money, k: string, p: Position, h: HashOrder)
    requires Notional(p.lastMark, p.quantity).Some?
    requires FitsI64(cash + MarkOf(p)) && FitsI64(MarkOf(p) - p.costBasis)
    ensures ValueState(before, cash, map[k := p], h) == Revalue(before, cash, Marks(MarkOf(p), MarkOf(p) - p.costBasis))
    ensures ValueState(before, cash, map[k := p], h).Some?
  {
    SingleOrder(h, k);
    assert map[k := p].Keys == {k};
    assert [k][..0] == [];
    assert Accumulate(map[k := p], [k]) == AccumulateOne(Marks(0, 0), p);
  }

  const BOUGHT := Position(3, 33_333_333, 1, 30_000_000, 0, 0, "")
  const REMAINDER := Position(1, 0, 0, 50_000_000, 0, 0, "")

  lemma BuyThree(h: HashOrder)
    ensures var bought := OpenLong(INITIAL, Order("X", 30_000_000, 0, 0, ""), AllCash, 3, h);
            && bought.Ok?
            && bought.value.positions == map["X" := BOUGHT]
            && bought.value.cash == STARTING_CASH - 1
            && bought.value.tradeCount == 1 && bought.value.totalFees == 0 && bought.value.roundTripCount == 0
  {
    assert Notional(30_000_000, 3) == Some(1);
    assert AveragePrice(1, 3) == Some(33_333_333);
    SingleValuation(INITIAL.valuation, STARTING_CASH - 1, "X", BOUGHT, h);
    assert INITIAL.positions["X" := BOUGHT] == map["X" := BOUGHT];
  }

  lemma SellTwo(s: Ledger, h: HashOrder)
    requires s.positions == map["X" := BOUGHT] && s.cash == STARTING_CASH - 1 && s.totalFees == 0
    requires s.tradeCount == 1 && s.roundTripCount == 0
    ensures var sold := ClosePosition(s, Order("X", 50_000_000, 0, 0, ""), 2, h);
            && sold.Ok?
            && sold.value.positions == map["X" := REMAINDER]
            && sold.value.cash == STARTING_CASH && sold.value.totalFees == 0
            && sold.value.tradeCount == 2 && sold.value.roundTripCount == 0
  {
    assert Notional(50_000_000, 2) == Some(1);
    assert Notional(50_000_000, 1) == Some(1);
    assert Proportional(1, 2, 3) == Some(1);
    assert Proportional(0, 2, 3) == Some(0);
    assert AveragePrice(0, 1) == Some(0);
    SingleValuation(s.valuation, STARTING_CASH, "X", REMAINDER, h);
    assert s.positions["X" := REMAINDER] == map["X" := REMAINDER];
  }

  /** Three units bought for one unit of money, two of them sold: the third is left with no cost. */
  lemma ReachableButNotRestorable(h: HashOrder)
    ensures var ops := [(Open(Order("X", 30_000_000, 0, 0, ""), 0, 3), h),
                        (Operation.Close(Order("X", 50_000_000, 0, 0, ""), 2), h)];
            var s := Run(INITIAL, ops);
            && "X" in s.positions && s.positions["X"].costBasis == 0
            && RestoreState(SnapshotState(s), h) == Err(InvalidArgument)
  {
    hide OpenLong, ClosePosition, ValueState;
    var open := Open(Order("X", 30_000_000, 0, 0, ""), 0, 3);
    var close := Operation.Close(Order("X", 50_000_000, 0, 0, ""), 2);
    var ops: seq<(Operation, HashOrder)> := [(open, h), (close, h)];
    assert ops[..1] == [(open, h)] && ops[..1][..0] == [];
    BuyThree(h);
    var s1 := Step(INITIAL, open, h);
    assert Run(INITIAL, ops[..1]) == s1;
    SellTwo(s1, h);
    var s := Run(INITIAL, ops);
    assert s == Step(s1, close, h);
    InitialIsSound();
    RunConserves(INITIAL, ops);
    TotalInsert(map[], "X", REMAINDER, CostOf);
    SnapshotRoundTrip(s, h);
  }
}
