/** What an entry may spend and what it buys for that, in the amounts themselves. */
module EntrySizing {
  import opened Wrappers
  import opened MachineWords
  import opened FinancialMath
  import opened ExecutionEngines

  // ---------------------------------------------------------------------------
  // What a budget affords
  // ---------------------------------------------------------------------------

  /**
   A budget affords a quantity if and only if it is positive and what the budget less the fee buys at
   the price, both cut to whole units.
   */
  lemma AffordableIff(budget: Money, price: Price, feeRate: Fraction, units: Quantity)
    ensures Affordable(budget, price, feeRate) == Some(units) <==>
              && budget >= 0 && 0 <= feeRate <= MAX_I64 - 100_000_000 && price > 0 && units > 0
              && exists net: Money :: IsTruncated(budget * 100_000_000, 100_000_000 + feeRate, net)
                                   && IsTruncated(net * 100_000_000, price, units) && net >= 0
  {
    hide NotionalBeforeFee, QuantityForNotional, IsTruncated;
    forall net: Money
      ensures NotionalBeforeFee(budget, feeRate) == Some(net) <==>
                && budget >= 0 && 0 <= feeRate <= MAX_I64 - 100_000_000
                && IsTruncated(budget * 100_000_000, 100_000_000 + feeRate, net)
      ensures QuantityForNotional(net, price) == Some(units) <==>
                net >= 0 && price > 0 && IsTruncated(net * 100_000_000, price, units)
    {
      NotionalBeforeFeeIff(budget, feeRate, net);
      QuantityForNotionalIff(net, price, units);
    }
  }

  /** The cost and fee of a quantity are the nearest roundings, and the debit is their sum. */
  lemma CostOfIff(price: Price, units: Quantity, feeRate: Fraction, sizing: Sizing)
    ensures CostOf(price, units, feeRate) == Some(sizing) <==>
              && sizing.units == units && sizing.debit == sizing.cost + sizing.fee
              && IsNearest(price * units, 100_000_000, sizing.cost)
              && IsNearest(sizing.cost * feeRate, 100_000_000, sizing.fee)
  {
    hide Notional, Fee, IsNearest;
    NotionalIff(price, units, sizing.cost);
    FeeIff(sizing.cost, feeRate, sizing.fee);
  }

  // ---------------------------------------------------------------------------
  // Equal slices
  // ---------------------------------------------------------------------------

  /** The cash left after `n` entries that each spend their whole budget. */
  function LeftAfter(cash: Money, maxPositions: nat, openPositions: nat, n: nat): (left: Money)
    requires cash >= 0
    ensures 0 <= left <= cash
  {
    if n == 0 then cash
    else
      var before := LeftAfter(cash, maxPositions, openPositions, n - 1);
      var budget := EntryBudget(before, false, maxPositions, openPositions + n - 1);
      BudgetFits(before, maxPositions, openPositions + n - 1);
      before - budget
  }

  lemma BudgetFits(cash: Money, maxPositions: nat, openPositions: nat)
    requires cash >= 0
    ensures 0 <= EntryBudget(cash, false, maxPositions, openPositions) <= cash
  {
    if maxPositions > 0 {
      SliceFits(cash, if maxPositions > openPositions then maxPositions - openPositions else 1);
    }
  }

  /** All cash, for a volatility-sized entry, without a limit on positions, and when no slot remains but one. */
  lemma WholeBudget(cash: Money, volatilitySized: bool, maxPositions: nat, openPositions: nat)
    requires cash >= 0 && (volatilitySized || maxPositions == 0 || openPositions + 1 >= maxPositions)
    ensures EntryBudget(cash, volatilitySized, maxPositions, openPositions) == cash
  {
  }

  /**
   With free slots the cash is shared equally: as many budgets as there are slots cost no more than
   the cash, and less than one unit per slot is left over.
   */
  lemma SlotsShareCash(cash: Money, maxPositions: nat, openPositions: nat)
    requires cash >= 0 && openPositions < maxPositions
    ensures var budget, slots := EntryBudget(cash, false, maxPositions, openPositions), maxPositions - openPositions;
            budget * slots <= cash < budget * slots + slots
  {
    FloorProduct(cash, maxPositions - openPositions);
  }

  /** The cash left lies between the common slice for every open slot and one unit more for each. */
  predicate SharedOut(left: int, slots: nat, slice: int) {
    slice * slots <= left <= slice * slots + slots
  }

  lemma NextSlice(left: nat, slots: nat, slice: nat)
    requires slots > 0 && SharedOut(left, slots, slice)
    ensures slice <= left / slots <= slice + 1 && SharedOut(left - left / slots, slots - 1, slice)
  {
    assert slice * (slots - 1) == slice * slots - slice;
    var odd := left - slice * slots;
    if odd < slots {
      DivModUnique(left, slots, slice, odd);
    } else {
      assert left == (slice + 1) * slots;
      DivModUnique(left, slots, slice + 1, 0);
    }
  }

  lemma SlotBudget(left: Money, maxPositions: nat, openPositions: nat)
    requires left >= 0 && openPositions < maxPositions
    ensures EntryBudget(left, false, maxPositions, openPositions) == left / (maxPositions - openPositions)
  {
  }

  lemma NothingShared(left: int, slice: int)
    requires SharedOut(left, 0, slice)
    ensures left == 0
  {
  }

  /**
   Filling the free slots one after the other spends the whole cash, and no entry's budget differs
   from the first one's by more than a unit.
   */
  lemma {:induction false} FillingSpendsCash(cash: Money, maxPositions: nat, openPositions: nat, n: nat)
    requires cash >= 0 && openPositions < maxPositions && n <= maxPositions - openPositions
    ensures var slice, slots := EntryBudget(cash, false, maxPositions, openPositions), maxPositions - openPositions;
            var left := LeftAfter(cash, maxPositions, openPositions, n);
            && SharedOut(left, slots - n, slice) && slice >= 0
            && (n < slots ==>
                  slice <= EntryBudget(left, false, maxPositions, openPositions + n) <= slice + 1)
            && (n == slots ==> left == 0)
  {
    var slice, slots := EntryBudget(cash, false, maxPositions, openPositions), maxPositions - openPositions;
    var left := LeftAfter(cash, maxPositions, openPositions, n);
    BudgetFits(cash, maxPositions, openPositions);
    if n == 0 {
      SlotsShareCash(cash, maxPositions, openPositions);
      hide EntryBudget;
    } else {
      FillingSpendsCash(cash, maxPositions, openPositions, n - 1);
      var before := LeftAfter(cash, maxPositions, openPositions, n - 1);
      SlotBudget(before, maxPositions, openPositions + n - 1);
      hide EntryBudget, SharedOut;
      NextSlice(before, slots - n + 1, slice);
    }
    hide SharedOut, LeftAfter;
    if n < slots {
      SlotBudget(left, maxPositions, openPositions + n);
      NextSlice(left, slots - n, slice);
    } else {
      NothingShared(left, slice);
    }
  }
}
