/**
 What each ledger operation does to the money, and exactly when it succeeds, in terms of the order
 and the ledgers before and after it. Amounts are described by the rationals they are rounded from.
 */
module LedgerEffects {
  import opened Wrappers
  import opened MachineWords
  import opened FinancialMath
  import opened SortedKeys
  import opened TableTotals
  import opened PortfolioLedger
  import opened LedgerConservation

  // ---------------------------------------------------------------------------
  // Valuation
  // ---------------------------------------------------------------------------

  /** The valuation is exact for the new books; the peak and the worst drawdown are the larger of old and new. */
  ghost predicate Revalued(before: Valuation, after: Ledger) {
    var v := after.valuation;
    && v.unrealized == Total(after.positions, MarkOf) - Total(after.positions, CostOf)
    && v.totalEquity == after.cash + Total(after.positions, MarkOf)
    && v.maxEquity == (if v.totalEquity > before.maxEquity then v.totalEquity else before.maxEquity)
    && (v.maxEquity > 0 ==> v.currentDrawdown * v.maxEquity as real == (v.maxEquity - v.totalEquity) as real)
    && (v.maxEquity <= 0 ==> v.currentDrawdown == 0.0)
    && v.maxDrawdown == (if v.currentDrawdown > before.maxDrawdown then v.currentDrawdown else before.maxDrawdown)
  }

  lemma DrawdownIsShareOfPeak(peak: Money, equity: Money)
    ensures peak > 0 ==> Drawdown(peak, equity) * peak as real == (peak - equity) as real
    ensures peak <= 0 ==> Drawdown(peak, equity) == 0.0
  {
    if peak > 0 {
      DivideThenTimes((peak - equity) as real, peak as real);
    }
  }

  lemma DivideThenTimes(x: real, y: real)
    requires y > 0.0
    ensures x / y * y == x
  {
  }

  lemma ValueStateRevalues(before: Valuation, after: Ledger, h: HashOrder)
    requires ValueState(before, after.cash, after.positions, h) == Some(after.valuation)
    ensures Revalued(before, after)
  {
    hide Notional;
    var order := h(after.positions.Keys);
    assert Lists(order, after.positions.Keys);
    AccumulateIsTotal(after.positions, order);
    TotalAlongIsTotal(order, after.positions.Keys, after.positions, MarkOf);
    TotalAlongIsTotal(order, after.positions.Keys, after.positions, CostOf);
    hide Accumulate, Drawdown;
    DrawdownIsShareOfPeak(after.valuation.maxEquity, after.valuation.totalEquity);
  }

  // ---------------------------------------------------------------------------
  // Opening a position
  // ---------------------------------------------------------------------------

  /** The cash an entry may use. */
  function Limit(s: Ledger, budget: Budget): int {
    match budget
    case AllCash => s.cash
    case Slice(amount) => amount
  }

  /** Quantity, cost and average price of an entry. */
  datatype Terms = Terms(quantity: Quantity, cost: Money, average: Price)

  /** Explicit units are taken as they are; otherwise the limit less the fee buys what it buys, rounded down. */
  ghost predicate TermsOf(order: Order, limit: int, units: Quantity, terms: Terms) {
    && terms.quantity > 0 && terms.cost > 0 && order.price > 0
    && (if units > 0 then terms.quantity == units
        else limit > order.fee && IsTruncated((limit - order.fee) * 100_000_000, order.price, terms.quantity))
    && IsNearest(order.price * terms.quantity, 100_000_000, terms.cost)
    && IsNearest(terms.cost * 100_000_000, terms.quantity, terms.average)
  }

  /** The position that an entry on these terms opens. */
  function Entered(order: Order, terms: Terms): Position {
    Position(terms.quantity, terms.average, terms.cost, order.price, order.timestamp, order.fee, order.strategyId)
  }

  ghost predicate Opened(s: Ledger, order: Order, terms: Terms, s': Ledger) {
    && s'.positions == s.positions[order.symbol := Entered(order, terms)]
    && s'.cash == s.cash - terms.cost - order.fee
    && s'.totalFees == s.totalFees + order.fee
    && s'.tradeCount == s.tradeCount + 1 && s'.roundTripCount == s.roundTripCount && s'.tradeLog == s.tradeLog
    && Revalued(s.valuation, s')
  }

  lemma EntryAmountsAreTerms(order: Order, limit: Money, units: Quantity, terms: Terms)
    requires order.price > 0 && order.fee >= 0 && limit >= 0
    ensures var entry := EntryAmounts(order.price, order.fee, limit, units);
            TermsOf(order, limit, units, terms) && terms.cost + order.fee <= limit <==>
              && entry.Ok? && entry.value.quantity == terms.quantity && entry.value.cost == terms.cost > 0
              && AveragePrice(terms.cost, terms.quantity) == Some(terms.average)
    ensures var entry := EntryAmounts(order.price, order.fee, limit, units);
            entry.Ok? ==> entry.value.debit == entry.value.cost + order.fee <= limit && entry.value.quantity > 0
  {
    hide IsNearest, IsTruncated, Notional, AveragePrice, QuantityForNotional;
    NotionalIff(order.price, terms.quantity, terms.cost);
    AveragePriceIff(terms.cost, terms.quantity, terms.average);
    if units <= 0 && limit > order.fee {
      QuantityForNotionalIff(limit - order.fee, order.price, terms.quantity);
    }
    if EntryAmounts(order.price, order.fee, limit, units).Ok? {
      EntryAmountsSound(order.price, order.fee, limit, units);
    }
  }

  /** The arguments an entry is refused for before anything is computed. */
  predicate EntryArgumentsValid(s: Ledger, order: Order, budget: Budget, units: Quantity) {
    && order.symbol != "" && order.price > 0 && order.fee >= 0 && units >= 0
    && 0 <= Limit(s, budget) <= s.cash && (budget.Slice? ==> budget.amount > 0)
  }

  /** What is left once the arguments are valid: the entry is affordable, every number fits, the counter has room. */
  ghost predicate CanOpen(s: Ledger, order: Order, budget: Budget, units: Quantity, terms: Terms, h: HashOrder) {
    && TermsOf(order, Limit(s, budget), units, terms)
    && terms.cost + order.fee <= Limit(s, budget) <= s.cash && order.fee >= 0
    && s.totalFees + order.fee <= MAX_I64 && s.tradeCount != MAX_INT
    && ValueState(s.valuation, s.cash - terms.cost - order.fee,
                  s.positions[order.symbol := Entered(order, terms)], h).Some?
  }

  lemma OpenCommits(s: Ledger, order: Order, budget: Budget, units: Quantity, terms: Terms, h: HashOrder)
    requires s.totalFees >= 0 && order.symbol !in s.positions && EntryArgumentsValid(s, order, budget, units)
    requires TermsOf(order, Limit(s, budget), units, terms) && terms.cost + order.fee <= Limit(s, budget)
    requires s.totalFees + order.fee <= MAX_I64
    ensures terms.cost > 0
    ensures OpenLong(s, order, budget, units, h) ==
              CommitEntry(s, order.symbol, Entered(order, terms), s.cash - terms.cost - order.fee,
                          s.totalFees + order.fee, h)
  {
    EntryAmountsAreTerms(order, Limit(s, budget), units, terms);
    hide Notional, AveragePrice, ValueState, EntryAmounts, TermsOf, CommitEntry;
  }

  lemma TermsOpen(s: Ledger, order: Order, budget: Budget, units: Quantity, terms: Terms, h: HashOrder)
    requires s.totalFees >= 0 && order.symbol !in s.positions && EntryArgumentsValid(s, order, budget, units)
    requires CanOpen(s, order, budget, units, terms, h)
    ensures OpenLong(s, order, budget, units, h).Ok?
    ensures Opened(s, order, terms, OpenLong(s, order, budget, units, h).value)
  {
    OpenCommits(s, order, budget, units, terms, h);
    hide OpenLong, EntryArgumentsValid, ValueState, TermsOf, Revalued;
    ValueStateRevalues(s.valuation, OpenLong(s, order, budget, units, h).value, h);
  }

  lemma OpenHasTerms(s: Ledger, order: Order, budget: Budget, units: Quantity, h: HashOrder) returns (terms: Terms)
    requires s.cash >= 0 && OpenLong(s, order, budget, units, h).Ok?
    ensures order.symbol !in s.positions && EntryArgumentsValid(s, order, budget, units)
    ensures CanOpen(s, order, budget, units, terms, h)
  {
    hide Notional, AveragePrice, ValueState, EntryAmounts, TermsOf;
    var entry := EntryAmounts(order.price, order.fee, Limit(s, budget), units).value;
    terms := Terms(entry.quantity, entry.cost, AveragePrice(entry.cost, entry.quantity).value);
    EntryAmountsAreTerms(order, Limit(s, budget), units, terms);
  }

  /** An entry is refused as an invalid argument just when an argument is invalid and the symbol is not held. */
  lemma OpenRefusesArguments(s: Ledger, order: Order, budget: Budget, units: Quantity, h: HashOrder)
    requires s.cash >= 0
    ensures OpenLong(s, order, budget, units, h) == Err(InvalidArgument) <==>
              order.symbol == "" || (order.symbol !in s.positions && !EntryArgumentsValid(s, order, budget, units))
  {
    hide Notional, AveragePrice, ValueState, QuantityForNotional;
  }

  /**
   An entry succeeds if and only if the symbol is new, the arguments are valid and the entry is
   affordable and representable; it then buys on exactly those terms.
   */
  lemma OpenLongIff(s: Ledger, order: Order, budget: Budget, units: Quantity, h: HashOrder)
    requires s.cash >= 0 && s.totalFees >= 0
    ensures var r := OpenLong(s, order, budget, units, h);
            && (r.Ok? <==>
                  && order.symbol !in s.positions && EntryArgumentsValid(s, order, budget, units)
                  && exists terms :: CanOpen(s, order, budget, units, terms, h))
            && (r.Ok? ==> forall terms | CanOpen(s, order, budget, units, terms, h) :: Opened(s, order, terms, r.value))
  {
    hide OpenLong, CanOpen, Opened;
    if OpenLong(s, order, budget, units, h).Ok? {
      var terms := OpenHasTerms(s, order, budget, units, h);
    }
    if order.symbol !in s.positions && EntryArgumentsValid(s, order, budget, units) {
      forall terms | CanOpen(s, order, budget, units, terms, h)
        ensures OpenLong(s, order, budget, units, h).Ok?
        ensures Opened(s, order, terms, OpenLong(s, order, budget, units, h).value)
      {
        TermsOpen(s, order, budget, units, terms, h);
      }
    }
  }

  // ---------------------------------------------------------------------------
  // Adding to a position
  // ---------------------------------------------------------------------------

  /** The added cost and the new average price. */
  datatype Addition = Addition(cost: Money, average: Price)

  ghost predicate AdditionOf(p: Position, order: Order, quantity: Quantity, added: Addition) {
    && quantity > 0 && order.price > 0 && added.cost > 0 && p.quantity + quantity != 0
    && IsNearest(order.price * quantity, 100_000_000, added.cost)
    && IsNearest((p.costBasis + added.cost) * 100_000_000, p.quantity + quantity, added.average)
  }

  /** The position after an addition that fits. */
  function Enlarged(p: Position, order: Order, quantity: Quantity, added: Addition): Position
    requires FitsI64(p.quantity + quantity) && FitsI64(p.costBasis + added.cost) && FitsI64(p.entryFee + order.fee)
  {
    p.(quantity := p.quantity + quantity, costBasis := p.costBasis + added.cost, entryFee := p.entryFee + order.fee,
       averageEntry := added.average, lastMark := order.price,
       strategyId := if order.strategyId != "" then order.strategyId else p.strategyId)
  }

  ghost predicate Grown(s: Ledger, order: Order, quantity: Quantity, added: Addition, s': Ledger)
    requires order.symbol in s.positions
  {
    && var p := s.positions[order.symbol];
    && FitsI64(p.quantity + quantity) && FitsI64(p.costBasis + added.cost) && FitsI64(p.entryFee + order.fee)
    && s'.positions == s.positions[order.symbol := Enlarged(p, order, quantity, added)]
    && s'.cash == s.cash - added.cost - order.fee
    && s'.totalFees == s.totalFees + order.fee
    && s'.tradeCount == s.tradeCount + 1 && s'.roundTripCount == s.roundTripCount && s'.tradeLog == s.tradeLog
    && Revalued(s.valuation, s')
  }

  ghost predicate CanAdd(s: Ledger, order: Order, quantity: Quantity, capital: i64, added: Addition, h: HashOrder)
    requires order.symbol in s.positions
  {
    var p := s.positions[order.symbol];
    && AdditionOf(p, order, quantity, added)
    && order.fee >= 0 && added.cost + order.fee <= s.cash
    && capital >= 0 && (capital > 0 ==> added.cost + order.fee <= capital)
    && FitsI64(p.quantity + quantity) && FitsI64(p.costBasis + added.cost) && FitsI64(p.entryFee + order.fee)
    && FitsI64(s.cash - added.cost - order.fee) && FitsI64(s.totalFees + order.fee) && s.tradeCount != MAX_INT
    && ValueState(s.valuation, s.cash - added.cost - order.fee,
                  s.positions[order.symbol := Enlarged(p, order, quantity, added)], h).Some?
  }

  lemma AdditionEnlarges(p: Position, order: Order, quantity: Quantity, added: Addition)
    requires PositionSound(p) && AdditionOf(p, order, quantity, added)
    ensures quantity > 0 && order.price > 0 && added.cost > 0
    ensures Notional(order.price, quantity) == Some(added.cost)
    ensures GrowPosition(p, order, quantity, added.cost) ==
              if FitsI64(p.quantity + quantity) && FitsI64(p.costBasis + added.cost) && FitsI64(p.entryFee + order.fee)
              then Ok(Enlarged(p, order, quantity, added)) else Err(Overflow)
  {
    NotionalIff(order.price, quantity, added.cost);
    if FitsI64(p.quantity + quantity) && FitsI64(p.costBasis + added.cost) {
      AveragePriceIff(p.costBasis + added.cost, p.quantity + quantity, added.average);
    }
    hide Notional, AveragePrice, IsNearest;
  }

  /** Whether an addition succeeds, and what it does, for the one addition it can be. */
  lemma AdditionDecides(s: Ledger, order: Order, quantity: Quantity, capital: i64, added: Addition, h: HashOrder)
    requires Sound(s) && s.totalFees >= 0 && order.symbol in s.positions
    requires AdditionOf(s.positions[order.symbol], order, quantity, added)
    ensures var r := AddToLong(s, order, quantity, capital, h);
            && (r.Ok? <==> CanAdd(s, order, quantity, capital, added, h))
            && (r.Ok? ==> Grown(s, order, quantity, added, r.value))
  {
    hide AdditionOf, Notional, AveragePrice, ValueState, Revalued, GrowPosition, OpenLong, AddBudget, Enlarged;
    assert PositionSound(s.positions[order.symbol]);
    hide Sound, PositionSound;
    AdditionEnlarges(s.positions[order.symbol], order, quantity, added);
    if AddToLong(s, order, quantity, capital, h).Ok? {
      ValueStateRevalues(s.valuation, AddToLong(s, order, quantity, capital, h).value, h);
    }
  }

  lemma GrowthHasAddition(s: Ledger, order: Order, quantity: Quantity, capital: i64, h: HashOrder)
    returns (added: Addition)
    requires Sound(s) && order.symbol in s.positions && AddToLong(s, order, quantity, capital, h).Ok?
    ensures AdditionOf(s.positions[order.symbol], order, quantity, added)
  {
    hide Notional, AveragePrice, ValueState, IsNearest, OpenLong, AddBudget;
    var p := s.positions[order.symbol];
    assert PositionSound(p);
    hide Sound, PositionSound;
    var cost := Notional(order.price, quantity).value;
    added := Addition(cost, AveragePrice(p.costBasis + cost, p.quantity + quantity).value);
    NotionalIff(order.price, quantity, cost);
    AveragePriceIff(p.costBasis + cost, p.quantity + quantity, added.average);
  }

  lemma CanAddMeansAddition(s: Ledger, order: Order, quantity: Quantity, capital: i64, added: Addition, h: HashOrder)
    requires order.symbol in s.positions && CanAdd(s, order, quantity, capital, added, h)
    ensures AdditionOf(s.positions[order.symbol], order, quantity, added)
  {
    hide AdditionOf, ValueState, Enlarged;
  }

  /** Adding to a held position succeeds if and only if it is affordable and representable, and then buys just that. */
  lemma AddToLongIff(s: Ledger, order: Order, quantity: Quantity, capital: i64, h: HashOrder)
    requires Sound(s) && s.totalFees >= 0 && order.symbol in s.positions
    ensures var r := AddToLong(s, order, quantity, capital, h);
            && (r.Ok? <==> exists added :: CanAdd(s, order, quantity, capital, added, h))
            && (r.Ok? ==> forall added | CanAdd(s, order, quantity, capital, added, h) ::
                            Grown(s, order, quantity, added, r.value))
            && (r == Err(InvalidArgument) <==> quantity <= 0 || order.fee < 0 || capital < 0 || order.price <= 0)
  {
    assert AddToLong(s, order, quantity, capital, h) == Err(InvalidArgument)
      <==> quantity <= 0 || order.fee < 0 || capital < 0 || order.price <= 0 by {
      hide Notional, AveragePrice, ValueState, Sound;
    }
    hide AddToLong, CanAdd, Grown, Sound;
    if AddToLong(s, order, quantity, capital, h).Ok? {
      var added := GrowthHasAddition(s, order, quantity, capital, h);
      AdditionDecides(s, order, quantity, capital, added, h);
    }
    forall added | CanAdd(s, order, quantity, capital, added, h)
      ensures AddToLong(s, order, quantity, capital, h).Ok?
      ensures Grown(s, order, quantity, added, AddToLong(s, order, quantity, capital, h).value)
    {
      CanAddMeansAddition(s, order, quantity, capital, added, h);
      AdditionDecides(s, order, quantity, capital, added, h);
    }
  }

  /** Shifting a non-negative rational by whole units shifts its rounding. */
  lemma NearestShifted(num: nat, den: nat, units: nat, x: int)
    requires den > 0
    ensures IsNearest(num + units * den, den, x + units) <==> IsNearest(num, den, x)
  {
    assert (x + units) * den == x * den + units * den;
    if IsNearest(num, den, x) || IsNearest(num + units * den, den, x + units) {
      NearestIsNonNegative(num, den, x, units);
    }
  }

  lemma NearestIsNonNegative(num: nat, den: nat, x: int, units: nat)
    requires den > 0 && (IsNearest(num, den, x) || IsNearest(num + units * den, den, x + units))
    ensures x * den >= 0
  {
    assert (x + units) * den == x * den + units * den;
    if x < 0 {
      MulMono(x, -1, den);
    } else {
      MulMono(0, x, den);
    }
  }

  /** The order's own worth, to which the entry is limited without an explicit budget, is what it costs. */
  lemma OwnWorth(order: Order, quantity: Quantity, cost: int)
    requires quantity > 0 && order.price > 0 && order.fee >= 0
    ensures IsNearest(order.price * quantity, 100_000_000, cost)
       <==> AddBudget(order.price, quantity, order.fee, 0) == Slice(cost + order.fee)
  {
    MulMono(1, order.price, quantity);
    var worth := quantity * order.price + order.fee * SCALE_FACTOR;
    assert order.price * quantity == quantity * order.price;
    NearestShifted(order.price * quantity, SCALE_FACTOR, order.fee, cost);
    RoundedIsTheRounding(worth, SCALE_FACTOR, NearestTiesAwayFromZero, cost + order.fee);
  }

  /** Limiting an entry of explicit units to its own worth is no limit beyond the cash. */
  lemma OwnWorthIsNoLimit(s: Ledger, order: Order, quantity: Quantity, terms: Terms, h: HashOrder)
    requires quantity > 0 && order.price > 0 && order.fee >= 0 && s.cash >= 0
    ensures var budget := AddBudget(order.price, quantity, order.fee, 0);
            CanOpen(s, order, budget, quantity, terms, h) <==> CanOpen(s, order, AllCash, quantity, terms, h)
    ensures var budget := AddBudget(order.price, quantity, order.fee, 0);
            CanOpen(s, order, AllCash, quantity, terms, h) && order.symbol != "" ==>
              EntryArgumentsValid(s, order, budget, quantity)
  {
    hide IsNearest, AddBudget, ValueState;
    if TermsOf(order, s.cash, quantity, terms) {
      OwnWorth(order, quantity, terms.cost);
    }
    assert forall limit: int, other: int ::
      TermsOf(order, limit, quantity, terms) ==> TermsOf(order, other, quantity, terms);
  }

  lemma AddIsOpen(s: Ledger, order: Order, quantity: Quantity, capital: i64, h: HashOrder)
    requires order.symbol !in s.positions
    ensures var entry := order.(timestamp := 0);
            AddToLong(s, order, quantity, capital, h)
            == OpenLong(s, entry, if capital > 0 then Slice(capital)
                                  else AddBudget(order.price, quantity, order.fee, 0), quantity, h)
  {
    hide OpenLong;
  }

  /**
   Adding to a symbol that is not held is an entry without a timestamp, limited to the given capital
   when that is positive and to all cash otherwise.
   */
  lemma AddOpensIff(s: Ledger, order: Order, quantity: Quantity, capital: i64, h: HashOrder)
    requires s.cash >= 0 && s.totalFees >= 0 && order.symbol !in s.positions
    ensures var r, entry := AddToLong(s, order, quantity, capital, h), order.(timestamp := 0);
            var budget := if capital > 0 then Slice(capital) else AllCash;
            && (r.Ok? <==>
                  && EntryArgumentsValid(s, entry, budget, quantity)
                  && (capital > 0 || quantity > 0 || order.fee == 0)
                  && exists terms :: CanOpen(s, entry, budget, quantity, terms, h))
            && (r.Ok? ==> forall terms | CanOpen(s, entry, budget, quantity, terms, h) ::
                            Opened(s, entry, terms, r.value))
  {
    var entry := order.(timestamp := 0);
    AddIsOpen(s, order, quantity, capital, h);
    if capital > 0 {
      hide OpenLong, AddToLong, CanOpen, Opened;
      OpenLongIff(s, entry, Slice(capital), quantity, h);
    } else if quantity == 0 {
      AddNothing(s, entry, h);
      hide OpenLong, AddToLong, CanOpen, Opened;
    } else {
      var budget := AddBudget(order.price, quantity, order.fee, 0);
      hide OpenLong, AddToLong, CanOpen, Opened, AddBudget;
      OpenLongIff(s, entry, budget, quantity, h);
      if quantity > 0 && order.price > 0 && order.fee >= 0 {
        forall terms
          ensures CanOpen(s, entry, budget, quantity, terms, h) <==> CanOpen(s, entry, AllCash, quantity, terms, h)
          ensures CanOpen(s, entry, AllCash, quantity, terms, h) && entry.symbol != "" ==>
                    EntryArgumentsValid(s, entry, budget, quantity)
        {
          OwnWorthIsNoLimit(s, entry, quantity, terms, h);
        }
      }
    }
  }

  /** Without units or capital, the entry is limited to its fee: nothing, unless there is none and all cash is used. */
  lemma AddNothing(s: Ledger, order: Order, h: HashOrder)
    requires s.cash >= 0 && s.totalFees >= 0 && order.symbol !in s.positions
    ensures var r := OpenLong(s, order, AddBudget(order.price, 0, order.fee, 0), 0, h);
            && (r.Ok? <==>
                  && EntryArgumentsValid(s, order, AllCash, 0) && order.fee == 0
                  && exists terms :: CanOpen(s, order, AllCash, 0, terms, h))
            && (r.Ok? ==> forall terms | CanOpen(s, order, AllCash, 0, terms, h) :: Opened(s, order, terms, r.value))
  {
    hide OpenLong, Opened, ValueState;
    var budget := AddBudget(order.price, 0, order.fee, 0);
    if order.fee > 0 {
      RoundedIsTheRounding(order.fee * SCALE_FACTOR, SCALE_FACTOR, NearestTiesAwayFromZero, order.fee);
    }
    OpenLongIff(s, order, budget, 0, h);
  }

  // ---------------------------------------------------------------------------
  // Closing, wholly or in part
  // ---------------------------------------------------------------------------

  /** What a sale brings in, what cost and entry fee leave with it, and the average price of what stays. */
  datatype Sale = Sale(proceeds: Money, cost: Money, entryFee: Money, average: Price)

  /** The part sold takes its share of cost and entry fee, each rounded to the nearest unit. */
  ghost predicate SaleOf(p: Position, order: Order, sold: Quantity, sale: Sale) {
    && 0 < sold <= p.quantity && order.price > 0
    && IsNearest(order.price * sold, 100_000_000, sale.proceeds)
    && IsNearest(p.costBasis * sold, p.quantity, sale.cost)
    && IsNearest(p.entryFee * sold, p.quantity, sale.entryFee)
    && (sold < p.quantity ==>
          IsNearest((p.costBasis - sale.cost) * 100_000_000, p.quantity - sold, sale.average))
  }

  /** The trade a sale is logged as. */
  predicate LoggedSale(p: Position, order: Order, sold: Quantity, sale: Sale, t: Trade) {
    && t.symbol == order.symbol
    && t.openTimestamp == p.entryTimestamp && t.closeTimestamp == order.timestamp
    && t.entryPrice == p.averageEntry && t.exitPrice == order.price && t.quantity == sold
    && t.totalFees == order.fee + sale.entryFee
    && t.grossPnL == sale.proceeds - sale.cost
    && t.realizedPnL == sale.proceeds - sale.cost - order.fee - sale.entryFee
    && t.strategyId == (if order.strategyId != "" then order.strategyId else p.strategyId)
  }

  ghost predicate Closed(s: Ledger, order: Order, sold: Quantity, sale: Sale, s': Ledger)
    requires order.symbol in s.positions
  {
    var p := s.positions[order.symbol];
    && (if sold == p.quantity then s'.positions == s.positions - {order.symbol}
        else
          && FitsI64(p.quantity - sold) && FitsI64(p.costBasis - sale.cost) && FitsI64(p.entryFee - sale.entryFee)
          && s'.positions == s.positions[order.symbol := Kept(p, order, sold, sale)])
    && s'.cash == s.cash + sale.proceeds - order.fee
    && s'.totalFees == s.totalFees + order.fee
    && |s'.tradeLog| == |s.tradeLog| + 1 && s.tradeLog <= s'.tradeLog
    && LoggedSale(p, order, sold, sale, s'.tradeLog[|s.tradeLog|])
    && s'.tradeCount == s.tradeCount + 1
    && s'.roundTripCount == s.roundTripCount + (if sold == p.quantity then 1 else 0)
    && Revalued(s.valuation, s')
  }

  /** How much a close asks to sell: the whole position when no quantity is given. */
  function Asked(p: Position, explicitQuantity: Quantity): Quantity {
    if explicitQuantity > 0 then explicitQuantity else p.quantity
  }

  /** What stays of a position after part of it was sold. */
  function Kept(p: Position, order: Order, sold: Quantity, sale: Sale): Position
    requires FitsI64(p.quantity - sold) && FitsI64(p.costBasis - sale.cost) && FitsI64(p.entryFee - sale.entryFee)
  {
    p.(quantity := p.quantity - sold, costBasis := p.costBasis - sale.cost, entryFee := p.entryFee - sale.entryFee,
       averageEntry := sale.average, lastMark := order.price)
  }

  lemma ShrunkIsKept(p: Position, order: Order, sold: Quantity, sale: Sale, slice: SoldSlice)
    requires FitsI64(p.quantity - sold) && FitsI64(p.costBasis - sale.cost) && FitsI64(p.entryFee - sale.entryFee)
    requires p.costBasis >= sale.cost && sold < p.quantity
    requires IsNearest((p.costBasis - sale.cost) * 100_000_000, p.quantity - sold, sale.average)
    requires slice.cost == sale.cost && slice.fee == sale.entryFee
    ensures ShrinkPosition(p, order, p.quantity - sold, slice) == Ok(Kept(p, order, sold, sale))
  {
    hide AveragePrice, IsNearest;
    AveragePriceIff(p.costBasis - sale.cost, p.quantity - sold, sale.average);
  }

  ghost predicate CanClose(s: Ledger, order: Order, explicitQuantity: Quantity, sale: Sale, h: HashOrder)
    requires order.symbol in s.positions
  {
    var p := s.positions[order.symbol];
    var sold := Asked(p, explicitQuantity);
    && explicitQuantity >= 0 && order.fee >= 0
    && SaleOf(p, order, sold, sale)
    && order.fee <= sale.proceeds
    && FitsI64(sale.proceeds - sale.cost)
    && FitsI64(sale.proceeds - sale.cost - order.fee)
    && FitsI64(sale.proceeds - sale.cost - order.fee - sale.entryFee)
    && FitsI64(order.fee + sale.entryFee)
    && FitsI64(s.cash + (sale.proceeds - order.fee)) && FitsI64(s.totalFees + order.fee)
    && FitsI64(p.costBasis - sale.cost) && FitsI64(p.entryFee - sale.entryFee)
    && s.tradeCount != MAX_INT && (sold == p.quantity ==> s.roundTripCount != MAX_INT)
    && ValueState(s.valuation, s.cash + (sale.proceeds - order.fee),
                  if sold == p.quantity then s.positions - {order.symbol}
                  else s.positions[order.symbol := Kept(p, order, sold, sale)], h).Some?
  }

  lemma SliceIsSale(p: Position, order: Order, sold: Quantity, sale: Sale)
    requires PositionSound(p) && order.fee >= 0 && SaleOf(p, order, sold, sale)
    ensures var slice := SellSlice(p, order, sold);
            && (slice.Ok? <==>
                  && order.fee <= sale.proceeds
                  && FitsI64(sale.proceeds - sale.cost)
                  && FitsI64(sale.proceeds - sale.cost - order.fee)
                  && FitsI64(sale.proceeds - sale.cost - order.fee - sale.entryFee)
                  && FitsI64(order.fee + sale.entryFee))
            && (slice.Ok? ==>
                  && slice.value.cost == sale.cost && slice.value.fee == sale.entryFee
                  && slice.value.netProceeds == sale.proceeds - order.fee
                  && LoggedSale(p, order, sold, sale, slice.value.trade))
  {
    NotionalIff(order.price, sold, sale.proceeds);
    ProportionalIff(p.costBasis, sold, p.quantity, sale.cost);
    ProportionalIff(p.entryFee, sold, p.quantity, sale.entryFee);
    hide Notional, Proportional, IsNearest, PositionSound;
  }

  lemma ProportionalWithinShare(p: Position, order: Order, sold: Quantity, sale: Sale)
    requires PositionSound(p) && SaleOf(p, order, sold, sale)
    ensures 0 <= sale.cost <= p.costBasis && 0 <= sale.entryFee <= p.entryFee
  {
    ProportionalIff(p.costBasis, sold, p.quantity, sale.cost);
    ProportionalIff(p.entryFee, sold, p.quantity, sale.entryFee);
    ProportionalWithin(p.costBasis, sold, p.quantity);
    ProportionalWithin(p.entryFee, sold, p.quantity);
  }

  lemma SaleLeaves(p: Position, order: Order, sold: Quantity, sale: Sale)
    requires PositionSound(p) && SaleOf(p, order, sold, sale)
    ensures 0 < sold <= p.quantity && order.price > 0
    ensures FitsI64(p.quantity - sold) && FitsI64(p.costBasis - sale.cost) && FitsI64(p.entryFee - sale.entryFee)
    ensures sold < p.quantity && SellSlice(p, order, sold).Ok? && order.fee >= 0 ==>
              ShrinkPosition(p, order, p.quantity - sold, SellSlice(p, order, sold).value)
              == Ok(Kept(p, order, sold, sale))
  {
    hide Notional, Proportional, AveragePrice, IsNearest, SellSlice, Kept, ShrinkPosition;
    ProportionalWithinShare(p, order, sold, sale);
    if sold < p.quantity && SellSlice(p, order, sold).Ok? && order.fee >= 0 {
      SliceIsSale(p, order, sold, sale);
      ShrunkIsKept(p, order, sold, sale, SellSlice(p, order, sold).value);
    }
  }

  /** Unfolding a close around a slice and a remainder that are known. */
  lemma CloseUnfolds(s: Ledger, order: Order, explicitQuantity: Quantity, slice: SoldSlice, next: map<string, Position>,
                     h: HashOrder)
    requires order.symbol in s.positions && explicitQuantity >= 0 && order.fee >= 0 && order.price > 0
    requires var p := s.positions[order.symbol];
             var sold := Asked(p, explicitQuantity);
             && 0 < sold <= p.quantity && SellSlice(p, order, sold) == Ok(slice)
             && (if sold == p.quantity then next == s.positions - {order.symbol}
                 else ShrinkPosition(p, order, p.quantity - sold, slice).Ok?
                      && next == s.positions[order.symbol := ShrinkPosition(p, order, p.quantity - sold, slice).value])
    ensures var r, whole := ClosePosition(s, order, explicitQuantity, h),
                            Asked(s.positions[order.symbol], explicitQuantity) == s.positions[order.symbol].quantity;
            && (r.Ok? <==>
                  && FitsI64(s.cash + slice.netProceeds) && FitsI64(s.totalFees + order.fee)
                  && s.tradeCount != MAX_INT && (whole ==> s.roundTripCount != MAX_INT)
                  && ValueState(s.valuation, s.cash + slice.netProceeds, next, h).Some?)
            && (r.Ok? ==>
                  && ValueState(s.valuation, s.cash + slice.netProceeds, next, h) == Some(r.value.valuation)
                  && r.value == Ledger(s.cash + slice.netProceeds, next, r.value.valuation, s.tradeCount + 1,
                                       s.totalFees + order.fee, s.tradeLog + [slice.trade],
                                       s.roundTripCount + (if whole then 1 else 0)))
  {
    hide SellSlice, ShrinkPosition, ValueState;
  }

  /** Whether a close succeeds, and what it does, for the one sale it can be. */
  lemma SaleDecides(s: Ledger, order: Order, explicitQuantity: Quantity, sale: Sale, h: HashOrder)
    requires Sound(s) && order.symbol in s.positions && explicitQuantity >= 0 && order.fee >= 0
    requires SaleOf(s.positions[order.symbol], order, Asked(s.positions[order.symbol], explicitQuantity), sale)
    ensures var r := ClosePosition(s, order, explicitQuantity, h);
            && (r.Ok? <==> CanClose(s, order, explicitQuantity, sale, h))
            && (r.Ok? ==> Closed(s, order, Asked(s.positions[order.symbol], explicitQuantity), sale, r.value))
  {
    hide Notional, Proportional, AveragePrice, ValueState, Revalued, IsNearest, SellSlice, LoggedSale, SaleOf;
    var p := s.positions[order.symbol];
    var sold := Asked(p, explicitQuantity);
    assert PositionSound(p);
    hide PositionSound, ShrinkPosition, Kept, Sound, ClosePosition;
    SliceIsSale(p, order, sold, sale);
    SaleLeaves(p, order, sold, sale);
    if SellSlice(p, order, sold).Ok? {
      var next := if sold == p.quantity then s.positions - {order.symbol}
                  else s.positions[order.symbol := Kept(p, order, sold, sale)];
      CloseUnfolds(s, order, explicitQuantity, SellSlice(p, order, sold).value, next, h);
      if ClosePosition(s, order, explicitQuantity, h).Ok? {
        ValueStateRevalues(s.valuation, ClosePosition(s, order, explicitQuantity, h).value, h);
      }
    } else if ClosePosition(s, order, explicitQuantity, h).Ok? {
      CloseNeedsSlice(s, order, explicitQuantity, h);
    }
  }

  lemma CloseNeedsSlice(s: Ledger, order: Order, explicitQuantity: Quantity, h: HashOrder)
    requires order.symbol in s.positions && ClosePosition(s, order, explicitQuantity, h).Ok?
    ensures SellSlice(s.positions[order.symbol], order, Asked(s.positions[order.symbol], explicitQuantity)).Ok?
  {
    hide SellSlice, ShrinkPosition, ValueState;
  }

  lemma SliceHasSale(p: Position, order: Order, sold: Quantity, average: Price) returns (sale: Sale)
    requires PositionSound(p) && 0 < sold <= p.quantity && order.fee >= 0 && order.price > 0
    requires SellSlice(p, order, sold).Ok?
    requires sold < p.quantity ==>
               && FitsI64(p.costBasis - SellSlice(p, order, sold).value.cost)
               && AveragePrice(p.costBasis - SellSlice(p, order, sold).value.cost, p.quantity - sold) == Some(average)
    ensures SaleOf(p, order, sold, sale) && sale.average == average
    ensures sale.cost == SellSlice(p, order, sold).value.cost
  {
    var proceeds := Notional(order.price, sold).value;
    var cost := Proportional(p.costBasis, sold, p.quantity).value;
    var fee := Proportional(p.entryFee, sold, p.quantity).value;
    hide Notional, Proportional, AveragePrice, IsNearest, PositionSound;
    sale := Sale(proceeds, cost, fee, average);
    NotionalIff(order.price, sold, proceeds);
    ProportionalIff(p.costBasis, sold, p.quantity, cost);
    ProportionalIff(p.entryFee, sold, p.quantity, fee);
    if sold < p.quantity {
      AveragePriceIff(p.costBasis - cost, p.quantity - sold, average);
    }
  }

  lemma ShrunkAverage(s: Ledger, order: Order, explicitQuantity: Quantity, h: HashOrder) returns (average: Price)
    requires Sound(s) && order.symbol in s.positions && ClosePosition(s, order, explicitQuantity, h).Ok?
    ensures var p := s.positions[order.symbol];
            var sold := Asked(p, explicitQuantity);
            && 0 < sold <= p.quantity && SellSlice(p, order, sold).Ok?
            && order.fee >= 0 && order.price > 0 && explicitQuantity >= 0
            && (sold < p.quantity ==>
                  && FitsI64(p.costBasis - SellSlice(p, order, sold).value.cost)
                  && AveragePrice(p.costBasis - SellSlice(p, order, sold).value.cost, p.quantity - sold)
                     == Some(average))
  {
    var p := s.positions[order.symbol];
    assert PositionSound(p);
    hide Notional, Proportional, AveragePrice, ValueState, SellSlice, Sound, PositionSound;
    var sold := Asked(p, explicitQuantity);
    average := 0;
    if sold < p.quantity {
      average := AveragePrice(p.costBasis - SellSlice(p, order, sold).value.cost, p.quantity - sold).value;
    }
  }

  lemma CloseHasSale(s: Ledger, order: Order, explicitQuantity: Quantity, h: HashOrder) returns (sale: Sale)
    requires Sound(s) && order.symbol in s.positions && ClosePosition(s, order, explicitQuantity, h).Ok?
    ensures CanClose(s, order, explicitQuantity, sale, h)
  {
    var p := s.positions[order.symbol];
    assert PositionSound(p);
    hide *;
    var average: Price := ShrunkAverage(s, order, explicitQuantity, h);
    sale := SliceHasSale(p, order, Asked(p, explicitQuantity), average);
    SaleDecides(s, order, explicitQuantity, sale, h);
  }

  lemma ClosableSale(s: Ledger, order: Order, explicitQuantity: Quantity, sale: Sale, h: HashOrder)
    requires Sound(s) && order.symbol in s.positions && CanClose(s, order, explicitQuantity, sale, h)
    ensures ClosePosition(s, order, explicitQuantity, h).Ok?
    ensures Closed(s, order, Asked(s.positions[order.symbol], explicitQuantity), sale,
                   ClosePosition(s, order, explicitQuantity, h).value)
  {
    hide ClosePosition, SaleOf, Closed, Sound, ValueState, Kept;
    SaleDecides(s, order, explicitQuantity, sale, h);
  }

  /**
   Closing a held position succeeds if and only if the quantity is held and the sale can be
   represented; what it sells then takes its rounded share of cost and entry fee and is logged so.
   Closing a symbol that is not held does nothing.
   */
  lemma ClosePositionIff(s: Ledger, order: Order, explicitQuantity: Quantity, h: HashOrder)
    requires Sound(s)
    ensures order.symbol !in s.positions ==> ClosePosition(s, order, explicitQuantity, h) == Ok(s)
    ensures order.symbol in s.positions ==>
              var r := ClosePosition(s, order, explicitQuantity, h);
              && (r.Ok? <==> exists sale :: CanClose(s, order, explicitQuantity, sale, h))
              && (r.Ok? ==> forall sale | CanClose(s, order, explicitQuantity, sale, h) ::
                              Closed(s, order, Asked(s.positions[order.symbol], explicitQuantity), sale, r.value))
              && (r == Err(InvalidArgument) <==> explicitQuantity < 0 || order.fee < 0 || order.price <= 0)
  {
    if order.symbol in s.positions {
      assert ClosePosition(s, order, explicitQuantity, h) == Err(InvalidArgument)
        <==> explicitQuantity < 0 || order.fee < 0 || order.price <= 0 by {
        hide Notional, Proportional, AveragePrice, ValueState, Sound;
      }
      hide ClosePosition, CanClose, Closed, Sound;
      if ClosePosition(s, order, explicitQuantity, h).Ok? {
        var sale := CloseHasSale(s, order, explicitQuantity, h);
      }
      forall sale | CanClose(s, order, explicitQuantity, sale, h)
        ensures ClosePosition(s, order, explicitQuantity, h).Ok?
        ensures Closed(s, order, Asked(s.positions[order.symbol], explicitQuantity), sale,
                       ClosePosition(s, order, explicitQuantity, h).value)
      {
        ClosableSale(s, order, explicitQuantity, sale, h);
      }
    }
  }

  // ---------------------------------------------------------------------------
  // Marking
  // ---------------------------------------------------------------------------

  /** A mark makes the given price the position's last mark, and changes nothing else but the valuation. */
  lemma UpdatePnLIff(s: Ledger, symbol: string, mark: Price, h: HashOrder)
    ensures symbol !in s.positions ==> UpdatePnL(s, symbol, mark, h) == Ok(s)
    ensures symbol in s.positions ==>
              var r := UpdatePnL(s, symbol, mark, h);
              var marked := s.positions[symbol := s.positions[symbol].(lastMark := mark)];
              && (r.Ok? <==> mark > 0 && ValueState(s.valuation, s.cash, marked, h).Some?)
              && (r.Ok? ==>
                    && r.value == s.(positions := marked, valuation := r.value.valuation)
                    && Revalued(s.valuation, r.value))
              && (r == Err(InvalidArgument) <==> mark <= 0)
  {
    hide ValueState, Revalued;
    if symbol in s.positions && UpdatePnL(s, symbol, mark, h).Ok? {
      ValueStateRevalues(s.valuation, UpdatePnL(s, symbol, mark, h).value, h);
    }
  }
}
