/**
 What the ladders hold: which level stands for a price, what each update writes, and, over runs of
 level updates, the size at every level and the quote that follows, all from the updates themselves.
 */
module OrderBookContents {
  import opened Wrappers
  import opened OrderBookLadder
  import opened OrderBookRuns

  // ---------------------------------------------------------------------------
  // Prices and levels
  // ---------------------------------------------------------------------------

  /** The price the `i`-th of `n` levels stands for. */
  function LevelPrice(base: real, tick: real, n: nat, i: int): real {
    base + (i - n / 2) as real * tick
  }

  /** The price is nearest to that level, the higher of two equally near ones; the outermost levels take all beyond. */
  predicate Covers(base: real, tick: real, n: nat, i: int, price: real) {
    && 0 <= i < n
    && (i > 0 ==> LevelPrice(base, tick, n, i) - tick / 2.0 <= price)
    && (i < n - 1 ==> price < LevelPrice(base, tick, n, i) + tick / 2.0)
  }

  /** The price is more than a quarter of the ladder away from the base. */
  predicate IsFar(base: real, tick: real, n: nat, price: real) {
    || price - base > (n / 4) as real * tick
    || base - price > (n / 4) as real * tick
  }

  lemma FloorIff(y: real, f: int)
    ensures y.Floor == f <==> f as real <= y < f as real + 1.0
  {
  }

  lemma QuotientBelow(x: real, t: real, c: real)
    requires t > 0.0
    ensures x / t < c <==> x < c * t
    ensures x / t >= c <==> x >= c * t
  {
    DivideThenTimes(x, t);
    ScaledOrder(x / t, c, t);
  }

  lemma ScaledOrder(a: real, b: real, t: real)
    requires t > 0.0
    ensures a < b <==> a * t < b * t
  {
    Distribute(a, b, t);
    if a < b {
      ProductPositive(b - a, t);
      Distribute(b, a, t);
    } else {
      ProductNonNegative(a - b, t);
    }
  }

  lemma ProductPositive(a: real, t: real)
    requires a > 0.0 && t > 0.0
    ensures a * t > 0.0
  {
  }

  lemma HalfTick(k: int, tick: real)
    ensures (k as real - 0.5) * tick == k as real * tick - tick / 2.0
    ensures (k as real + 0.5) * tick == k as real * tick + tick / 2.0
  {
    Distribute(k as real, 0.5, tick);
    Distribute(k as real, -0.5, tick);
  }

  /** The tick count of a price lies at or above `k` exactly when the price does, to half a tick. */
  lemma TicksAtLeast(b: Book, price: real, k: int)
    requires b.tick > 0.0
    ensures Ticks(b, price) >= k <==> b.base + k as real * b.tick - b.tick / 2.0 <= price
  {
    var x, y := price - b.base, (price - b.base) / b.tick + 0.5;
    FloorIff(y, y.Floor);
    QuotientBelow(x, b.tick, k as real - 0.5);
    HalfTick(k, b.tick);
  }

  /** A price is mapped to a level if and only if that level covers it. */
  lemma ToIndexIff(b: Book, price: real, i: int)
    requires WellFormed(b)
    ensures i == ToIndex(b, price) <==> Covers(b.base, b.tick, |b.bids.levels|, i, price)
  {
    var n := |b.bids.levels|;
    TicksAtLeast(b, price, i - n / 2);
    TicksAtLeast(b, price, i - n / 2 + 1);
    HalfTick(i - n / 2, b.tick);
    NextTick(i - n / 2, b.tick);
    hide Ticks;
  }

  lemma NextTick(k: int, tick: real)
    ensures (k + 1) as real * tick == k as real * tick + tick
  {
    Distribute(k as real, -1.0, tick);
  }

  lemma ToPriceIs(b: Book, i: nat)
    ensures ToPrice(b, i) == LevelPrice(b.base, b.tick, |b.bids.levels|, i)
  {
  }

  lemma InReachIff(b: Book, price: real)
    requires b.tick > 0.0
    ensures InReach(b, price) <==> !IsFar(b.base, b.tick, |b.bids.levels|, price)
  {
    var bound := (|b.bids.levels| / 4) as real;
    QuotientBelow(RealAbs(price - b.base), b.tick, bound);
    QuotientAtMost(RealAbs(price - b.base), b.tick, bound);
  }

  lemma QuotientAtMost(x: real, t: real, c: real)
    requires t > 0.0
    ensures x / t <= c <==> x <= c * t
  {
    DivideThenTimes(x, t);
    ScaledOrder(c, x / t, t);
  }

  // ---------------------------------------------------------------------------
  // One update
  // ---------------------------------------------------------------------------

  ghost predicate IsEmptySide(s: Side, n: nat) {
    |s.levels| == n && s.best == -1 && s.lastBbo == -1 && forall i :: 0 <= i < n ==> s.levels[i] == 0.0
  }

  ghost predicate EmptiedAround(b: Book, price: real, b': Book) {
    && b'.tick == b.tick && b'.base == price && b'.initialized && b'.recenters == b.recenters + 1
    && IsEmptySide(b'.bids, |b.bids.levels|) && IsEmptySide(b'.asks, |b.asks.levels|)
  }

  /** The ladder stays unless it has no place yet or the price is far; then it is emptied around the price. */
  lemma MappableIff(b: Book, price: real)
    requires WellFormed(b)
    ensures if b.initialized && !IsFar(b.base, b.tick, |b.bids.levels|, price) then EnsureMappable(b, price) == b
            else EmptiedAround(b, price, EnsureMappable(b, price))
  {
    InReachIff(b, price);
  }

  /** Scanning away from level `i` found `best`: the next live level behind it, or none. */
  ghost predicate FoundBehind(levels: seq<real>, bid: bool, i: int, best: int) {
    && -1 <= best < |levels|
    && (best >= 0 ==> levels[best] > 0.0 && Better(bid, i, best))
    && forall k :: 0 <= k < |levels| && Better(bid, i, k) && (best == -1 || Better(bid, k, best)) ==> levels[k] <= 0.0
  }

  /** One level was set, and the cached index followed: to the level, behind it, or not at all. */
  ghost predicate LevelSet(s: Side, bid: bool, i: nat, quantity: real, t: Side) {
    && |t.levels| == |s.levels| > i && t.lastBbo == s.lastBbo
    && t.levels[i] == quantity && (forall k :: 0 <= k < |s.levels| && k != i ==> t.levels[k] == s.levels[k])
    && (quantity > 0.0 ==> t.best == if s.best < 0 || Better(bid, i, s.best) then i else s.best)
    && (quantity <= 0.0 ==> if s.best == i then FoundBehind(t.levels, bid, i, t.best) else t.best == s.best)
  }

  lemma SetLevelSets(s: Side, bid: bool, i: nat, quantity: real)
    requires i < |s.levels|
    ensures LevelSet(s, bid, i, quantity, SetLevel(s, bid, i, quantity))
  {
  }

  /**
   A level update is accepted if and only if its price is positive and its quantity not negative. The
   level covering the price then holds exactly the quantity; every other level of both sides, and the
   other side's index, are as the ladder was once it had a place for the price.
   */
  lemma LevelUpdateWrites(b: Book, bid: bool, price: real, quantity: real)
    requires WellFormed(b)
    ensures var (d, accepted) := ApplyLevel(b, bid, price, quantity);
            && (accepted <==> price > 0.0 && quantity >= 0.0)
            && (!accepted ==> d == b)
            && (accepted ==>
                  var c := EnsureMappable(b, price);
                  && WellFormed(c)
                  && exists i: nat ::
                       && Covers(c.base, c.tick, |c.bids.levels|, i, price)
                       && (if bid then LevelSet(c.bids, true, i, quantity, d.bids) && d.asks == c.asks
                           else LevelSet(c.asks, false, i, quantity, d.asks) && d.bids == c.bids)
                       && d.tick == c.tick && d.base == c.base && d.initialized && d.recenters == c.recenters)
  {
    if price > 0.0 && quantity >= 0.0 {
      MappableIsInReach(b, price);
      MappableIff(b, price);
      var c := EnsureMappable(b, price);
      hide EnsureMappable, InReach, IsFar;
      var i := ToIndex(c, price);
      ToIndexIff(c, price, i);
      hide ToIndex, Covers, SetLevel, LevelSet;
      SetLevelSets(if bid then c.bids else c.asks, bid, i, quantity);
    }
  }

  /** The last best quote of a side made way for a new one, or for none when its quantity is zero. */
  ghost predicate QuoteReplaced(s: Side, bid: bool, i: nat, quantity: real, t: Side) {
    && |t.levels| == |s.levels| > i && t.lastBbo == (if quantity > 0.0 then i else -1)
    && (forall k :: 0 <= k < |s.levels| ==>
          t.levels[k] == if k == i && quantity > 0.0 then quantity else if k == s.lastBbo then 0.0 else s.levels[k])
    && (if quantity > 0.0
        then t.best == if s.best < 0 || s.best == s.lastBbo || Better(bid, i, s.best) then i else s.best
        else if s.best == s.lastBbo && s.best >= 0 then FoundBehind(t.levels, bid, s.lastBbo, t.best)
        else t.best == s.best)
  }

  lemma ReplaceBboReplaces(s: Side, bid: bool, i: nat, quantity: real)
    requires i < |s.levels| && -1 <= s.lastBbo < |s.levels|
    ensures QuoteReplaced(s, bid, i, quantity, ReplaceBbo(s, bid, i, quantity))
  {
  }

  /**
   A best quote is accepted if and only if its prices are positive and not crossed. On each side the
   last best quote's level is then emptied, the level covering the new price holds its quantity when
   that is positive, and every other level is as it was once the ladder had a place for both prices.
   */
  lemma QuoteUpdateWrites(b: Book, bidPrice: real, bidQuantity: real, askPrice: real, askQuantity: real)
    requires WellFormed(b) && BookLive(b)
    ensures var (d, accepted) := ApplyBbo(b, bidPrice, bidQuantity, askPrice, askQuantity);
            && (accepted <==> bidPrice > 0.0 && askPrice >= bidPrice)
            && (!accepted ==> d == b)
            && (accepted ==>
                  var c := EnsureMappable(EnsureMappable(b, bidPrice), askPrice);
                  && WellFormed(c)
                  && exists i: nat, j: nat ::
                       && Covers(c.base, c.tick, |c.bids.levels|, i, bidPrice)
                       && Covers(c.base, c.tick, |c.bids.levels|, j, askPrice)
                       && QuoteReplaced(c.bids, true, i, if bidQuantity > 0.0 then bidQuantity else 0.0, d.bids)
                       && QuoteReplaced(c.asks, false, j, if askQuantity > 0.0 then askQuantity else 0.0, d.asks)
                       && d.tick == c.tick && d.base == c.base && d.initialized == c.initialized
                       && d.recenters == c.recenters)
  {
    if bidPrice > 0.0 && askPrice >= bidPrice {
      MappableIsInReach(b, bidPrice);
      MappableIsInReach(EnsureMappable(b, bidPrice), askPrice);
      MappableKeeps(b, bidPrice);
      MappableKeeps(EnsureMappable(b, bidPrice), askPrice);
      var c := EnsureMappable(EnsureMappable(b, bidPrice), askPrice);
      hide EnsureMappable, InReach;
      var i, j := ToIndex(c, bidPrice), ToIndex(c, askPrice);
      ToIndexIff(c, bidPrice, i);
      ToIndexIff(c, askPrice, j);
      hide ToIndex, Covers, ReplaceBbo, QuoteReplaced;
      ReplaceBboReplaces(c.bids, true, i, Positive(bidQuantity));
      ReplaceBboReplaces(c.asks, false, j, Positive(askQuantity));
    }
  }

  /** A reset empties both sides, around the reference price when that is positive and nowhere otherwise. */
  lemma ResetEmpties(b: Book, referencePrice: real)
    requires WellFormed(b)
    ensures var d := ResetTo(b, referencePrice);
            && (referencePrice > 0.0 ==> EmptiedAround(b, referencePrice, d))
            && (referencePrice <= 0.0 ==>
                  && d.tick == b.tick && d.base == 0.0 && !d.initialized && d.recenters == b.recenters
                  && IsEmptySide(d.bids, |b.bids.levels|) && IsEmptySide(d.asks, |b.asks.levels|))
  {
  }

  /** A new book is empty and nowhere, with ticks of one hundredth when it was given none. */
  lemma NewBookIsEmpty(tick: real, n: nat)
    ensures var d := NewBook(tick, n);
            && d.tick > 0.0 && (tick > 0.0 ==> d.tick == tick) && (tick <= 0.0 ==> d.tick * 100.0 == 1.0)
            && !d.initialized && d.recenters == 0 && IsEmptySide(d.bids, n) && IsEmptySide(d.asks, n)
  {
  }

  // ---------------------------------------------------------------------------
  // Runs of level updates
  // ---------------------------------------------------------------------------

  predicate IsAccepted(op: Operation) {
    match op
    case BidLevel(price, quantity) => price > 0.0 && quantity >= 0.0
    case AskLevel(price, quantity) => price > 0.0 && quantity >= 0.0
    case _ => true
  }

  /** The base price after some resets and level updates, from these alone. */
  function Base(tick: real, n: nat, ops: seq<Operation>): Option<real> {
    if ops == [] then None
    else
      var before, last := Base(tick, n, ops[..|ops| - 1]), ops[|ops| - 1];
      match last
      case Reset(referencePrice) => if referencePrice > 0.0 then Some(referencePrice) else None
      case Bbo(_, _, _, _) => before
      case _ =>
        if IsAccepted(last) && (before == None || IsFar(before.value, tick, n, last.price)) then Some(last.price)
        else before
  }

  /** The update writes that level of that side. */
  predicate Writes(tick: real, n: nat, base: Option<real>, op: Operation, bid: bool, i: int) {
    && (if bid then op.BidLevel? else op.AskLevel?) && IsAccepted(op)
    && base.Some? && Covers(base.value, tick, n, i, op.price)
  }

  /** The size of the last update that wrote the level since the ladder was last emptied; zero when there is none. */
  function LastSize(tick: real, n: nat, ops: seq<Operation>, bid: bool, i: int): real {
    if ops == [] then 0.0
    else
      var front, last := ops[..|ops| - 1], ops[|ops| - 1];
      if last.Reset? then 0.0
      else if Writes(tick, n, Base(tick, n, ops), last, bid, i) then last.quantity
      else if Base(tick, n, ops) != Base(tick, n, front) then 0.0
      else LastSize(tick, n, front, bid, i)
  }

  /** The book holds what the updates say. */
  ghost predicate HoldsLastSizes(b: Book, tick: real, n: nat, ops: seq<Operation>) {
    && b.tick == tick && |b.bids.levels| == |b.asks.levels| == n
    && (b.initialized <==> Base(tick, n, ops).Some?)
    && (b.initialized ==> b.base == Base(tick, n, ops).value)
    && (!b.initialized ==> forall i :: 0 <= i < n ==> b.bids.levels[i] == b.asks.levels[i] == 0.0)
    && (forall i :: 0 <= i < n ==> b.bids.levels[i] == LastSize(tick, n, ops, true, i))
    && (forall i :: 0 <= i < n ==> b.asks.levels[i] == LastSize(tick, n, ops, false, i))
  }

  /** No level covers a price twice over. */
  lemma CoveredOnce(base: real, tick: real, n: nat, i: int, j: int, price: real)
    requires tick > 0.0 && Covers(base, tick, n, i, price) && Covers(base, tick, n, j, price)
    ensures i == j
  {
    var b := Book(tick, base, true, EmptySide(n), EmptySide(n), 0);
    ToIndexIff(b, price, i);
    ToIndexIff(b, price, j);
    hide Covers, ToIndex;
  }

  /** The ladder moves for the update: it has no place yet, or the price is far from it. */
  predicate MovesFor(tick: real, n: nat, base: Option<real>, price: real) {
    base == None || IsFar(base.value, tick, n, price)
  }

  /** What an accepted level update adds to the sizes. */
  lemma LevelSizes(tick: real, n: nat, ops: seq<Operation>, bid: bool)
    requires ops != [] && (if bid then ops[|ops| - 1].BidLevel? else ops[|ops| - 1].AskLevel?)
    requires tick > 0.0 && IsAccepted(ops[|ops| - 1])
    ensures var front, last := ops[..|ops| - 1], ops[|ops| - 1];
            var moves := MovesFor(tick, n, Base(tick, n, front), last.price);
            && Base(tick, n, ops) == (if moves then Some(last.price) else Base(tick, n, front))
            && (forall side, k ::
                  LastSize(tick, n, ops, side, k) ==
                    if side == bid && Covers(Base(tick, n, ops).value, tick, n, k, last.price) then last.quantity
                    else if moves then 0.0 else LastSize(tick, n, front, side, k))
  {
    var front, last := ops[..|ops| - 1], ops[|ops| - 1];
    if Base(tick, n, front).Some? && IsFar(Base(tick, n, front).value, tick, n, last.price) {
      FarIsElsewhere(Base(tick, n, front).value, tick, n, last.price);
    }
    hide IsFar, Covers;
  }

  lemma LevelStepHolds(b: Book, tick: real, n: nat, ops: seq<Operation>, bid: bool)
    requires ops != [] && (if bid then ops[|ops| - 1].BidLevel? else ops[|ops| - 1].AskLevel?)
    requires tick > 0.0 && n > 0 && HoldsLastSizes(b, tick, n, ops[..|ops| - 1])
    ensures HoldsLastSizes(Step(b, ops[|ops| - 1]), tick, n, ops)
  {
    var front, last := ops[..|ops| - 1], ops[|ops| - 1];
    LevelUpdateWrites(b, bid, last.price, last.quantity);
    if IsAccepted(last) {
      LevelSizes(tick, n, ops, bid);
      hide Base, LastSize;
      MappableIff(b, last.price);
      var c, d := EnsureMappable(b, last.price), Step(b, last);
      hide ApplyLevel, EnsureMappable, InReach, IsFar;
      var i: nat :| && Covers(c.base, c.tick, |c.bids.levels|, i, last.price)
                    && (if bid then LevelSet(c.bids, true, i, last.quantity, d.bids) && d.asks == c.asks
                        else LevelSet(c.asks, false, i, last.quantity, d.asks) && d.bids == c.bids);
      forall k | 0 <= k < n && Covers(c.base, tick, n, k, last.price) ensures k == i {
        CoveredOnce(c.base, tick, n, k, i, last.price);
      }
      hide Covers, Step, FoundBehind;
    }
  }

  lemma FarIsElsewhere(base: real, tick: real, n: nat, price: real)
    requires tick > 0.0 && IsFar(base, tick, n, price)
    ensures price != base
  {
    ProductNonNegative((n / 4) as real, tick);
  }

  lemma ResetStepHolds(b: Book, tick: real, n: nat, ops: seq<Operation>)
    requires ops != [] && ops[|ops| - 1].Reset?
    requires tick > 0.0 && n > 0 && HoldsLastSizes(b, tick, n, ops[..|ops| - 1])
    ensures HoldsLastSizes(Step(b, ops[|ops| - 1]), tick, n, ops)
  {
    ResetEmpties(b, ops[|ops| - 1].referencePrice);
    hide ResetTo;
  }

  /**
   After any run of level updates and resets, every level of both sides holds the size of the last
   update that wrote it since the ladder was last emptied.
   */
  lemma {:induction false} LevelsHoldLastSizes(tick: real, n: nat, ops: seq<Operation>)
    requires tick > 0.0 && n > 0 && forall op :: op in ops ==> !op.Bbo?
    ensures HoldsLastSizes(Run(NewBook(tick, n), ops), tick, n, ops)
  {
    if ops == [] {
    } else {
      hide Step, HoldsLastSizes;
      var front, last := ops[..|ops| - 1], ops[|ops| - 1];
      assert last in ops && forall op :: op in front ==> op in ops;
      LevelsHoldLastSizes(tick, n, front);
      var b := Run(NewBook(tick, n), front);
      match last
      case Reset(_) => ResetStepHolds(b, tick, n, ops);
      case BidLevel(_, _) => LevelStepHolds(b, tick, n, ops, true);
      case AskLevel(_, _) => LevelStepHolds(b, tick, n, ops, false);
      case Bbo(_, _, _, _) => assert false;
    }
  }

  /** The level holds something, and no better level of its side does. */
  ghost predicate IsBestLevel(tick: real, n: nat, ops: seq<Operation>, bid: bool, i: int) {
    && 0 <= i < n && LastSize(tick, n, ops, bid, i) > 0.0
    && forall k :: 0 <= k < n && Better(bid, k, i) ==> LastSize(tick, n, ops, bid, k) <= 0.0
  }

  ghost predicate HasLevels(tick: real, n: nat, ops: seq<Operation>, bid: bool) {
    exists i :: 0 <= i < n && LastSize(tick, n, ops, bid, i) > 0.0
  }

  /**
   After any run of level updates and resets, a quote is reported if and only if both sides have a
   live level, and it is the highest live bid and the lowest live ask, with their prices and sizes.
   */
  lemma LevelRunsReportBest(tick: real, n: nat, ops: seq<Operation>)
    requires tick > 0.0 && n > 0 && forall op :: op in ops ==> !op.Bbo?
    ensures var quote := BestQuote(Run(NewBook(tick, n), ops));
            && (quote.Some? <==> HasLevels(tick, n, ops, true) && HasLevels(tick, n, ops, false))
            && (quote.Some? ==>
                  && Base(tick, n, ops).Some?
                  && exists i, j ::
                       && IsBestLevel(tick, n, ops, true, i) && IsBestLevel(tick, n, ops, false, j)
                       && quote.value == Quote(LevelPrice(Base(tick, n, ops).value, tick, n, i),
                                               LastSize(tick, n, ops, true, i),
                                               LevelPrice(Base(tick, n, ops).value, tick, n, j),
                                               LastSize(tick, n, ops, false, j)))
  {
    var b := Run(NewBook(tick, n), ops);
    LevelsHoldLastSizes(tick, n, ops);
    LevelRunsKeepBest(tick, n, ops);
    hide LastSize, Base, Run;
    if BestQuote(b).Some? {
      var i, j := b.bids.best, b.asks.best;
      ToPriceIs(b, i);
      ToPriceIs(b, j);
      hide LevelPrice, ToPrice;
      assert IsBestLevel(tick, n, ops, true, i) && IsBestLevel(tick, n, ops, false, j);
    }
  }
}
