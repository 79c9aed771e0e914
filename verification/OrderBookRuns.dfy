/**
 What runs of updates keep of an order book: which level the cached index names, what quote is
 reported, and when mixing level updates and best quotes loses the best level.
 */
module OrderBookRuns {
  import opened Wrappers
  import opened OrderBookLadder

  // ---------------------------------------------------------------------------
  // Runs
  // ---------------------------------------------------------------------------

  ghost predicate BookExtreme(b: Book) {
    BestIsExtreme(b.bids, true) && BestIsExtreme(b.asks, false)
  }

  ghost predicate BookLive(b: Book) {
    BestIsLive(b.bids) && BestIsLive(b.asks)
  }

  ghost predicate BookOnlyLast(b: Book) {
    OnlyLastIsLive(b.bids) && OnlyLastIsLive(b.asks)
  }

  lemma EmptyBook(b: Book, n: nat)
    requires b.bids == EmptySide(n) && b.asks == EmptySide(n)
    ensures BookExtreme(b) && BookLive(b) && BookOnlyLast(b)
  {
  }

  lemma MappableKeeps(b: Book, price: real)
    requires WellFormed(b)
    ensures BookExtreme(b) ==> BookExtreme(EnsureMappable(b, price))
    ensures BookLive(b) ==> BookLive(EnsureMappable(b, price))
    ensures BookOnlyLast(b) ==> BookOnlyLast(EnsureMappable(b, price))
  {
    if !b.initialized || !InReach(b, price) {
      EmptyBook(EnsureMappable(b, price), |b.bids.levels|);
    }
  }

  lemma ResetKeeps(b: Book, referencePrice: real)
    requires WellFormed(b)
    ensures BookExtreme(ResetTo(b, referencePrice)) && BookLive(ResetTo(b, referencePrice))
    ensures BookOnlyLast(ResetTo(b, referencePrice))
  {
    EmptyBook(ResetTo(b, referencePrice), |b.bids.levels|);
  }

  lemma LevelStepKeepsExtreme(b: Book, op: Operation)
    requires WellFormed(b) && BookExtreme(b) && !op.Bbo?
    ensures BookExtreme(Step(b, op))
  {
    hide BestIsExtreme, EnsureMappable, SetLevel, ToIndex;
    match op
    case Reset(referencePrice) =>
      ResetKeeps(b, referencePrice);
    case BidLevel(price, quantity) =>
      if price > 0.0 && quantity >= 0.0 {
        MappableKeeps(b, price);
        MappableIsInReach(b, price);
        var c := EnsureMappable(b, price);
        SetLevelKeepsExtreme(c.bids, true, ToIndex(c, price), quantity);
      }
    case AskLevel(price, quantity) =>
      if price > 0.0 && quantity >= 0.0 {
        MappableKeeps(b, price);
        MappableIsInReach(b, price);
        var c := EnsureMappable(b, price);
        SetLevelKeepsExtreme(c.asks, false, ToIndex(c, price), quantity);
      }
  }

  lemma BboStepKeepsOnlyLast(b: Book, op: Operation)
    requires WellFormed(b) && BookOnlyLast(b) && (op.Bbo? || op.Reset?)
    ensures BookOnlyLast(Step(b, op))
  {
    hide OnlyLastIsLive, EnsureMappable, ReplaceBbo, ToIndex;
    match op
    case Reset(referencePrice) =>
      ResetKeeps(b, referencePrice);
    case Bbo(bidPrice, bidQuantity, askPrice, askQuantity) =>
      if bidPrice > 0.0 && askPrice >= bidPrice {
        MappableKeeps(b, bidPrice);
        MappableIsInReach(b, bidPrice);
        var c := EnsureMappable(b, bidPrice);
        MappableKeeps(c, askPrice);
        MappableIsInReach(c, askPrice);
        var d := EnsureMappable(c, askPrice);
        ReplaceBboKeepsOnlyLast(d.bids, true, ToIndex(d, bidPrice), Positive(bidQuantity));
        ReplaceBboKeepsOnlyLast(d.asks, false, ToIndex(d, askPrice), Positive(askQuantity));
      }
  }

  lemma StepKeepsLive(b: Book, op: Operation)
    requires WellFormed(b) && BookLive(b)
    ensures BookLive(Step(b, op))
  {
    hide BestIsLive, EnsureMappable, ReplaceBbo, SetLevel, ToIndex;
    match op
    case Reset(referencePrice) =>
      ResetKeeps(b, referencePrice);
    case BidLevel(price, quantity) =>
      if price > 0.0 && quantity >= 0.0 {
        MappableKeeps(b, price);
        MappableIsInReach(b, price);
        var c := EnsureMappable(b, price);
        SetLevelKeepsLive(c.bids, true, ToIndex(c, price), quantity);
      }
    case AskLevel(price, quantity) =>
      if price > 0.0 && quantity >= 0.0 {
        MappableKeeps(b, price);
        MappableIsInReach(b, price);
        var c := EnsureMappable(b, price);
        SetLevelKeepsLive(c.asks, false, ToIndex(c, price), quantity);
      }
    case Bbo(bidPrice, bidQuantity, askPrice, askQuantity) =>
      if bidPrice > 0.0 && askPrice >= bidPrice {
        MappableKeeps(b, bidPrice);
        MappableIsInReach(b, bidPrice);
        var c := EnsureMappable(b, bidPrice);
        MappableKeeps(c, askPrice);
        MappableIsInReach(c, askPrice);
        var d := EnsureMappable(c, askPrice);
        ReplaceBboKeepsLive(d.bids, true, ToIndex(d, bidPrice), Positive(bidQuantity));
        ReplaceBboKeepsLive(d.asks, false, ToIndex(d, askPrice), Positive(askQuantity));
      }
  }

  /** After any run of level updates and resets, the cached indices are the best levels of both sides. */
  lemma {:induction false} LevelRunsKeepBest(tick: real, levelCount: nat, ops: seq<Operation>)
    requires levelCount > 0 && forall op :: op in ops ==> !op.Bbo?
    ensures BookExtreme(Run(NewBook(tick, levelCount), ops))
  {
    hide BookExtreme, Step;
    var b := NewBook(tick, levelCount);
    if ops == [] {
      EmptyBook(b, levelCount);
    } else {
      var front, last := ops[..|ops| - 1], ops[|ops| - 1];
      assert last in ops && forall op :: op in front ==> op in ops;
      LevelRunsKeepBest(tick, levelCount, front);
      LevelStepKeepsExtreme(Run(b, front), last);
    }
  }

  /** After any run of best-quote updates and resets, the cached indices are the only positive levels. */
  lemma {:induction false} BboRunsKeepBest(tick: real, levelCount: nat, ops: seq<Operation>)
    requires levelCount > 0 && forall op :: op in ops ==> op.Bbo? || op.Reset?
    ensures BookOnlyLast(Run(NewBook(tick, levelCount), ops)) && BookExtreme(Run(NewBook(tick, levelCount), ops))
  {
    hide BookOnlyLast, BookExtreme, Step;
    var b := NewBook(tick, levelCount);
    if ops == [] {
      EmptyBook(b, levelCount);
    } else {
      var front, last := ops[..|ops| - 1], ops[|ops| - 1];
      assert last in ops && forall op :: op in front ==> op in ops;
      BboRunsKeepBest(tick, levelCount, front);
      BboStepKeepsOnlyLast(Run(b, front), last);
    }
    OnlyLastBook(Run(b, ops));
  }

  lemma OnlyLastBook(b: Book)
    requires BookOnlyLast(b)
    ensures BookExtreme(b)
  {
    OnlyLastIsExtreme(b.bids, true);
    OnlyLastIsExtreme(b.asks, false);
  }

  /** In any run at all, a cached index names a positive level. */
  lemma {:induction false} RunsKeepLive(tick: real, levelCount: nat, ops: seq<Operation>)
    requires levelCount > 0
    ensures BookLive(Run(NewBook(tick, levelCount), ops))
  {
    hide BookLive, Step;
    var b := NewBook(tick, levelCount);
    if ops == [] {
      EmptyBook(b, levelCount);
    } else {
      RunsKeepLive(tick, levelCount, ops[..|ops| - 1]);
      StepKeepsLive(Run(b, ops[..|ops| - 1]), ops[|ops| - 1]);
    }
  }

  // ---------------------------------------------------------------------------
  // The reported quote
  // ---------------------------------------------------------------------------

  /** On a book fed by best quotes alone, an accepted quote with both sizes is what the book then reports. */
  lemma QuoteIsReported(b: Book, bidPrice: real, bidSize: real, askPrice: real, askSize: real)
    requires WellFormed(b) && BookOnlyLast(b)
    requires bidPrice > 0.0 && askPrice >= bidPrice && bidSize > 0.0 && askSize > 0.0
    ensures var c := ApplyBbo(b, bidPrice, bidSize, askPrice, askSize).0;
            && BestQuote(c).Some?
            && BestQuote(c).value.bidSize == bidSize && BestQuote(c).value.askSize == askSize
            && BestQuote(c).value.bidPrice <= BestQuote(c).value.askPrice
            && RealAbs(BestQuote(c).value.askPrice - askPrice) <= b.tick / 2.0
            && (InReach(c, bidPrice) ==> RealAbs(BestQuote(c).value.bidPrice - bidPrice) <= b.tick / 2.0)
  {
    hide BookOnlyLast, BookLive, BookExtreme, InReach, EnsureMappable, ReplaceBbo, BestQuote, ToIndex, RealAbs, ToPrice;
    MappableKeeps(b, bidPrice);
    MappableIsInReach(b, bidPrice);
    var c := EnsureMappable(b, bidPrice);
    MappableKeeps(c, askPrice);
    MappableIsInReach(c, askPrice);
    var d := EnsureMappable(c, askPrice);
    MappableKeepsTick(b, bidPrice);
    MappableKeepsTick(c, askPrice);
    ToIndexIsMonotone(d, bidPrice, askPrice);
    InReachIsExact(d, askPrice);
    var i, j := ToIndex(d, bidPrice), ToIndex(d, askPrice);
    QuoteIs(d, i, bidSize, j, askSize);
    PricesKeepOrder(d, i, j);
    SameReach(d, ApplyBbo(b, bidPrice, bidSize, askPrice, askSize).0, bidPrice);
    if InReach(d, bidPrice) {
      InReachIsExact(d, bidPrice);
    }
  }

  lemma MappableKeepsTick(b: Book, price: real)
    requires WellFormed(b)
    ensures EnsureMappable(b, price).tick == b.tick
  {
  }

  lemma SameReach(b: Book, c: Book, price: real)
    requires b.tick > 0.0 && c.tick == b.tick && c.base == b.base && |c.bids.levels| == |b.bids.levels|
    ensures InReach(c, price) <==> InReach(b, price)
  {
  }

  lemma PricesKeepOrder(b: Book, i: nat, j: nat)
    requires i <= j && b.tick > 0.0
    ensures ToPrice(b, i) <= ToPrice(b, j)
  {
    var m := Mid(b);
    assert (j - m) as real * b.tick - (i - m) as real * b.tick == (j - i) as real * b.tick by {
      Distribute((j - m) as real, (i - m) as real, b.tick);
    }
    assert (j - i) as real * b.tick >= 0.0;
  }

  lemma SamePrice(b: Book, c: Book, i: nat)
    requires c.tick == b.tick && c.base == b.base && |c.bids.levels| == |b.bids.levels|
    ensures ToPrice(b, i) == ToPrice(c, i)
  {
  }

  lemma NewBestQuote(s: Side, bid: bool, i: nat, size: real)
    requires OnlyLastIsLive(s) && i < |s.levels| && size > 0.0
    ensures var t := ReplaceBbo(s, bid, i, size);
            t.best == i && |t.levels| == |s.levels| && t.levels[i] == size
  {
  }

  lemma QuoteIs(d: Book, i: nat, bidSize: real, j: nat, askSize: real)
    requires WellFormed(d) && BookOnlyLast(d) && i < |d.bids.levels| && j < |d.asks.levels|
    requires bidSize > 0.0 && askSize > 0.0
    ensures var c := d.(bids := ReplaceBbo(d.bids, true, i, bidSize), asks := ReplaceBbo(d.asks, false, j, askSize));
            && |c.bids.levels| == |d.bids.levels|
            && BestQuote(c) == Some(Quote(ToPrice(d, i), bidSize, ToPrice(d, j), askSize))
  {
    hide ToPrice, ReplaceBbo, OnlyLastIsLive;
    var c := d.(bids := ReplaceBbo(d.bids, true, i, bidSize), asks := ReplaceBbo(d.asks, false, j, askSize));
    NewBestQuote(d.bids, true, i, bidSize);
    NewBestQuote(d.asks, false, j, askSize);
    SamePrice(c, d, i);
    SamePrice(c, d, j);
  }

  // ---------------------------------------------------------------------------
  // Runs that mix both kinds of update
  // ---------------------------------------------------------------------------

  /** A best-quote update that is accepted and overtaken on one of the sides. */
  ghost predicate StepOvertakes(b: Book, op: Operation)
    requires WellFormed(b)
  {
    && op.Bbo? && op.bidPrice > 0.0 && op.askPrice >= op.bidPrice
    && var c := EnsureMappable(EnsureMappable(b, op.bidPrice), op.askPrice);
       || Overtaken(c.bids, true, ToIndex(c, op.bidPrice), Positive(op.bidQuantity))
       || Overtaken(c.asks, false, ToIndex(c, op.askPrice), Positive(op.askQuantity))
  }

  lemma StepKeepsExtremeIff(b: Book, op: Operation)
    requires WellFormed(b) && BookExtreme(b) && BookLive(b)
    ensures BookExtreme(Step(b, op)) <==> !StepOvertakes(b, op)
  {
    if op.Bbo? {
      if op.bidPrice > 0.0 && op.askPrice >= op.bidPrice {
        hide BestIsExtreme, EnsureMappable, ReplaceBbo, ToIndex, Overtaken;
        MappableKeeps(b, op.bidPrice);
        MappableIsInReach(b, op.bidPrice);
        var c := EnsureMappable(b, op.bidPrice);
        MappableKeeps(c, op.askPrice);
        MappableIsInReach(c, op.askPrice);
        var d := EnsureMappable(c, op.askPrice);
        ReplaceBboKeepsExtremeIff(d.bids, true, ToIndex(d, op.bidPrice), Positive(op.bidQuantity));
        ReplaceBboKeepsExtremeIff(d.asks, false, ToIndex(d, op.askPrice), Positive(op.askQuantity));
      }
    } else {
      hide BookExtreme, Step;
      LevelStepKeepsExtreme(b, op);
    }
  }

  /** The cached indices are the best levels after every operation of a run. */
  ghost predicate BestThroughout(b: Book, ops: seq<Operation>)
    requires WellFormed(b)
  {
    BookExtreme(Run(b, ops)) && (ops != [] ==> BestThroughout(b, ops[..|ops| - 1]))
  }

  /** No best-quote update of a run is overtaken. */
  ghost predicate NeverOvertaken(b: Book, ops: seq<Operation>)
    requires WellFormed(b)
  {
    ops != [] ==>
      && NeverOvertaken(b, ops[..|ops| - 1])
      && !StepOvertakes(Run(b, ops[..|ops| - 1]), ops[|ops| - 1])
  }

  /** The cached indices are the best levels throughout a run if and only if no update in it is overtaken. */
  lemma {:induction false} RunsKeepBestIff(tick: real, levelCount: nat, ops: seq<Operation>)
    requires levelCount > 0
    ensures BestThroughout(NewBook(tick, levelCount), ops) <==> NeverOvertaken(NewBook(tick, levelCount), ops)
  {
    hide BookExtreme, BookLive, Step, StepOvertakes;
    var b := NewBook(tick, levelCount);
    if ops == [] {
      EmptyBook(b, levelCount);
    } else {
      var front, last := ops[..|ops| - 1], ops[|ops| - 1];
      RunsKeepBestIff(tick, levelCount, front);
      RunsKeepLive(tick, levelCount, front);
      if BestThroughout(b, front) {
        StepKeepsExtremeIff(Run(b, front), last);
      }
    }
  }

  /** Sixteen levels, empty but for the given ones. */
  function Ladder(live: map<nat, real>): (levels: seq<real>)
    ensures |levels| == 16
    ensures forall i :: 0 <= i < 16 ==> levels[i] == if i in live then live[i] else 0.0
  {
    seq(16, i => if i in live then live[i] else 0.0)
  }

  const ASKS := Side(Ladder(map[9 := 1.0]), 9, 9)

  function Around102(bids: Side, asks: Side): Book {
    Book(1.0, 102.0, true, bids, asks, 1)
  }

  lemma Indices(bids: Side, asks: Side)
    requires |bids.levels| == |asks.levels| == 16
    ensures var b := Around102(bids, asks);
            && (forall p | p in {100.0, 101.0, 102.0, 103.0} :: EnsureMappable(b, p) == b)
            && ToIndex(b, 100.0) == 6 && ToIndex(b, 101.0) == 7 && ToIndex(b, 102.0) == 8 && ToIndex(b, 103.0) == 9
            && ToPrice(b, 6) == 100.0 && ToPrice(b, 9) == 103.0
  {
  }

  /**
   Mixing the two kinds of update can lose track of live levels: two bids at 102 (a best quote) and
   101 (a level), then the best quote moves to 100. The book reports 100 although 101 is live, and
   clearing 100 then leaves it without a quote.
   */
  lemma MixedRunsCanMissTheBest()
    ensures var moved := [Bbo(102.0, 1.0, 103.0, 1.0), BidLevel(101.0, 1.0), Bbo(100.0, 1.0, 103.0, 1.0)];
            var b := Run(NewBook(1.0, 16), moved);
            var c := Run(NewBook(1.0, 16), moved + [BidLevel(100.0, 0.0)]);
            && BestQuote(b) == Some(Quote(100.0, 1.0, 103.0, 1.0)) && b.bids.levels[ToIndex(b, 101.0)] == 1.0
            && BestQuote(c) == None && c.bids.levels[ToIndex(c, 101.0)] == 1.0
  {
    var ops := [Bbo(102.0, 1.0, 103.0, 1.0), BidLevel(101.0, 1.0), Bbo(100.0, 1.0, 103.0, 1.0), BidLevel(100.0, 0.0)];
    QuoteAt102();
    LevelAt101();
    QuoteAt100();
    LevelAt100Cleared();
    Indices(Side(Ladder(map[6 := 1.0, 7 := 1.0]), 6, 6), ASKS);
    Indices(Side(Ladder(map[7 := 1.0]), -1, 6), ASKS);
    hide EnsureMappable, ToIndex, ToPrice, InReach, Run, Step;
    RunOfFour(NewBook(1.0, 16), ops[0], ops[1], ops[2], ops[3]);
  }

  lemma LevelAt101()
    ensures Step(Around102(Side(Ladder(map[8 := 1.0]), 8, 8), ASKS), BidLevel(101.0, 1.0))
         == Around102(Side(Ladder(map[7 := 1.0, 8 := 1.0]), 8, 8), ASKS)
  {
    hide EnsureMappable, ToIndex, ToPrice, InReach;
    Indices(Side(Ladder(map[8 := 1.0]), 8, 8), ASKS);
    assert Ladder(map[8 := 1.0])[7 := 1.0] == Ladder(map[7 := 1.0, 8 := 1.0]);
  }

  lemma QuoteAt100()
    ensures Step(Around102(Side(Ladder(map[7 := 1.0, 8 := 1.0]), 8, 8), ASKS), Bbo(100.0, 1.0, 103.0, 1.0))
         == Around102(Side(Ladder(map[6 := 1.0, 7 := 1.0]), 6, 6), ASKS)
  {
    hide EnsureMappable, ToIndex, ToPrice, InReach;
    Indices(Side(Ladder(map[7 := 1.0, 8 := 1.0]), 8, 8), ASKS);
    assert Ladder(map[7 := 1.0, 8 := 1.0])[8 := 0.0][6 := 1.0] == Ladder(map[6 := 1.0, 7 := 1.0]);
    assert ASKS.levels[9 := 0.0][9 := 1.0] == ASKS.levels;
  }

  lemma LevelAt100Cleared()
    ensures Step(Around102(Side(Ladder(map[6 := 1.0, 7 := 1.0]), 6, 6), ASKS), BidLevel(100.0, 0.0))
         == Around102(Side(Ladder(map[7 := 1.0]), -1, 6), ASKS)
  {
    hide EnsureMappable, ToIndex, ToPrice, InReach;
    Indices(Side(Ladder(map[6 := 1.0, 7 := 1.0]), 6, 6), ASKS);
    assert Ladder(map[6 := 1.0, 7 := 1.0])[6 := 0.0] == Ladder(map[7 := 1.0]);
  }

  lemma QuoteAt102()
    ensures Step(NewBook(1.0, 16), Bbo(102.0, 1.0, 103.0, 1.0))
         == Around102(Side(Ladder(map[8 := 1.0]), 8, 8), ASKS)
  {
    var none := EmptySide(16);
    var c := Around102(none, none);
    assert EnsureMappable(NewBook(1.0, 16), 102.0) == c;
    hide EnsureMappable, ToIndex, ToPrice, InReach, Ladder;
    Indices(none, none);
    assert none.levels[8 := 1.0] == Ladder(map[8 := 1.0]);
    assert none.levels[9 := 1.0] == Ladder(map[9 := 1.0]);
  }

  lemma RunOfFour(b: Book, o1: Operation, o2: Operation, o3: Operation, o4: Operation)
    requires WellFormed(b)
    ensures Run(b, [o1, o2, o3]) == Step(Step(Step(b, o1), o2), o3)
    ensures Run(b, [o1, o2, o3, o4]) == Step(Step(Step(Step(b, o1), o2), o3), o4)
  {
    hide Step;
    assert [o1, o2, o3, o4][..3] == [o1, o2, o3] && [o1, o2, o3][..2] == [o1, o2] && [o1, o2][..1] == [o1];
    assert Run(b, [o1]) == Step(b, o1);
    assert Run(b, [o1, o2]) == Step(Step(b, o1), o2);
  }
}
