/**
 One price ladder per side with a cached index of the best positive level. A side is changed level
 by level, or by replacing the last best bid and offer; prices are mapped to ladder indices around
 a base price that moves when a price is too far from it. Prices and sizes are exact reals.
 */
module OrderBookLadder {
  import opened Wrappers

  /** A ladder, the cached best index and the index last written by a best-quote update (-1 when none). */
  datatype Side = Side(levels: seq<real>, best: int, lastBbo: int)

  datatype Book = Book(tick: real, base: real, initialized: bool, bids: Side, asks: Side, recenters: nat)

  /** Bids are best when highest, asks when lowest. */
  predicate Better(bid: bool, i: int, j: int) {
    if bid then i > j else i < j
  }

  // ---------------------------------------------------------------------------
  // One side
  // ---------------------------------------------------------------------------

  /** The highest positive level below `n`, or -1. */
  function HighestBelow(levels: seq<real>, n: nat): (best: int)
    requires n <= |levels|
    ensures -1 <= best < n && (best >= 0 ==> levels[best] > 0.0)
    ensures forall i :: best < i < n ==> levels[i] <= 0.0
  {
    if n == 0 then -1 else if levels[n - 1] > 0.0 then n - 1 else HighestBelow(levels, n - 1)
  }

  /** The lowest positive level from `n` on, or -1. */
  function LowestFrom(levels: seq<real>, n: nat): (best: int)
    requires n <= |levels|
    ensures best == -1 || (n <= best < |levels| && levels[best] > 0.0)
    ensures forall i :: n <= i < (if best == -1 then |levels| else best) ==> levels[i] <= 0.0
    decreases |levels| - n
  {
    if n == |levels| then -1 else if levels[n] > 0.0 then n else LowestFrom(levels, n + 1)
  }

  function Refresh(levels: seq<real>, bid: bool, start: nat): int {
    if start >= |levels| then -1 else if bid then HighestBelow(levels, start) else LowestFrom(levels, start)
  }

  function SetLevel(s: Side, bid: bool, i: nat, quantity: real): Side
    requires i < |s.levels|
  {
    var t := s.(levels := s.levels[i := quantity]);
    if quantity > 0.0 then
      if s.best < 0 || Better(bid, i, s.best) then t.(best := i) else t
    else if s.best == i then t.(best := Refresh(t.levels, bid, i))
    else t
  }

  function ClearLast(s: Side): seq<real> {
    if 0 <= s.lastBbo < |s.levels| then s.levels[s.lastBbo := 0.0] else s.levels
  }

  function ReplaceBbo(s: Side, bid: bool, i: nat, quantity: real): Side
    requires i < |s.levels|
  {
    var levels := if quantity > 0.0 then ClearLast(s)[i := quantity] else ClearLast(s);
    var best :=
      if quantity > 0.0 then
        if s.best < 0 || s.best == s.lastBbo || Better(bid, i, s.best) then i else s.best
      else if s.best == s.lastBbo then
        if s.lastBbo < 0 then -1 else Refresh(levels, bid, s.lastBbo)
      else s.best;
    Side(levels, best, if quantity > 0.0 then i else -1)
  }

  function EmptySide(n: nat): Side {
    Side(seq(n, _ => 0.0), -1, -1)
  }

  /** The cached index is the highest (bid) or lowest (ask) positive level, or -1 when there is none. */
  ghost predicate BestIsExtreme(s: Side, bid: bool) {
    if s.best < 0 then s.best == -1 && forall i :: 0 <= i < |s.levels| ==> s.levels[i] <= 0.0
    else
      && s.best < |s.levels| && s.levels[s.best] > 0.0
      && forall i :: 0 <= i < |s.levels| && s.levels[i] > 0.0 ==> i == s.best || Better(bid, s.best, i)
  }

  /** The cached index names a positive level, or nothing. */
  ghost predicate BestIsLive(s: Side) {
    && -1 <= s.best < |s.levels| && -1 <= s.lastBbo < |s.levels|
    && (s.best >= 0 ==> s.levels[s.best] > 0.0)
  }

  /** Only the level of the last best quote is positive. */
  ghost predicate OnlyLastIsLive(s: Side) {
    && s.best == s.lastBbo && -1 <= s.best < |s.levels|
    && forall i :: 0 <= i < |s.levels| ==> (s.levels[i] > 0.0 <==> i == s.best)
  }

  lemma SetLevelKeepsExtreme(s: Side, bid: bool, i: nat, quantity: real)
    requires BestIsExtreme(s, bid) && i < |s.levels|
    ensures BestIsExtreme(SetLevel(s, bid, i, quantity), bid)
  {
    var t := SetLevel(s, bid, i, quantity);
    assert forall k :: 0 <= k < |s.levels| && k != i ==> t.levels[k] == s.levels[k];
  }

  lemma SetLevelKeepsLive(s: Side, bid: bool, i: nat, quantity: real)
    requires BestIsLive(s) && i < |s.levels|
    ensures BestIsLive(SetLevel(s, bid, i, quantity))
  {
  }

  lemma ReplaceBboKeepsLive(s: Side, bid: bool, i: nat, quantity: real)
    requires BestIsLive(s) && i < |s.levels|
    ensures BestIsLive(ReplaceBbo(s, bid, i, quantity))
  {
  }

  lemma ReplaceBboKeepsOnlyLast(s: Side, bid: bool, i: nat, quantity: real)
    requires OnlyLastIsLive(s) && i < |s.levels|
    ensures OnlyLastIsLive(ReplaceBbo(s, bid, i, quantity))
  {
    var t := ReplaceBbo(s, bid, i, quantity);
    assert forall k :: 0 <= k < |s.levels| && k != i && k != s.lastBbo ==> t.levels[k] == s.levels[k];
  }

  lemma OnlyLastIsExtreme(s: Side, bid: bool)
    requires OnlyLastIsLive(s)
    ensures BestIsExtreme(s, bid)
  {
  }

  /** The outgoing best quote was the best level, and some other positive level lies beyond the new one. */
  ghost predicate Overtaken(s: Side, bid: bool, i: nat, quantity: real) {
    && quantity > 0.0 && s.best >= 0 && s.best == s.lastBbo
    && exists k :: 0 <= k < |s.levels| && k != s.lastBbo && s.levels[k] > 0.0 && Better(bid, k, i)
  }

  /** Replacing the best quote keeps the cached index exact except when it is overtaken, and then it is wrong. */
  lemma ReplaceBboKeepsExtremeIff(s: Side, bid: bool, i: nat, quantity: real)
    requires BestIsExtreme(s, bid) && -1 <= s.lastBbo < |s.levels| && i < |s.levels|
    ensures BestIsExtreme(ReplaceBbo(s, bid, i, quantity), bid) <==> !Overtaken(s, bid, i, quantity)
  {
    var t := ReplaceBbo(s, bid, i, quantity);
    assert forall k :: 0 <= k < |s.levels| && k != i && k != s.lastBbo ==> t.levels[k] == s.levels[k];
    if Overtaken(s, bid, i, quantity) {
      var k :| 0 <= k < |s.levels| && k != s.lastBbo && s.levels[k] > 0.0 && Better(bid, k, i);
      assert t.levels[k] > 0.0 && t.best == i && !Better(bid, t.best, k);
    }
  }

  // ---------------------------------------------------------------------------
  // Prices and indices
  // ---------------------------------------------------------------------------

  function Mid(b: Book): nat {
    |b.bids.levels| / 2
  }

  function Clamp(i: int, n: nat): (r: nat)
    requires n > 0
    ensures r < n && (0 <= i < n ==> r == i)
  {
    if i < 0 then 0 else if i >= n then n - 1 else i
  }

  function Ticks(b: Book, price: real): int
    requires b.tick > 0.0
  {
    ((price - b.base) / b.tick + 0.5).Floor
  }

  function ToIndex(b: Book, price: real): (i: nat)
    requires WellFormed(b)
    ensures i < |b.bids.levels| && i < |b.asks.levels|
  {
    Clamp(Mid(b) + Ticks(b, price), |b.bids.levels|)
  }

  function ToPrice(b: Book, i: nat): real {
    b.base + (i - Mid(b)) as real * b.tick
  }

  predicate WellFormed(b: Book) {
    b.tick > 0.0 && |b.bids.levels| == |b.asks.levels| > 0
  }

  function RealAbs(x: real): real {
    if x < 0.0 then -x else x
  }

  /** Within a quarter of the ladder of the base price. */
  predicate InReach(b: Book, price: real)
    requires b.tick > 0.0
  {
    RealAbs(price - b.base) / b.tick <= (|b.bids.levels| / 4) as real
  }

  function Recenter(b: Book, price: real): Book {
    b.(base := price, initialized := true, bids := EmptySide(|b.bids.levels|), asks := EmptySide(|b.asks.levels|),
       recenters := b.recenters + 1)
  }

  /** Moves the ladder to the price when it has none yet or the price is out of reach. */
  function EnsureMappable(b: Book, price: real): Book
    requires WellFormed(b)
  {
    if !b.initialized || !InReach(b, price) then Recenter(b, price) else b
  }

  lemma MappableIsInReach(b: Book, price: real)
    requires WellFormed(b)
    ensures WellFormed(EnsureMappable(b, price)) && InReach(EnsureMappable(b, price), price)
  {
    if !b.initialized || !InReach(b, price) {
      assert 0.0 / b.tick == 0.0;
    }
  }

  lemma DivideMono(a: real, b: real, t: real)
    requires a <= b && t > 0.0
    ensures a / t <= b / t
  {
  }

  lemma DivideNegated(a: real, t: real)
    requires t > 0.0
    ensures (-a) / t == -(a / t)
  {
  }

  lemma FloorMono(x: real, y: real)
    requires x <= y
    ensures x.Floor <= y.Floor
  {
  }

  /** A higher price never has a lower index, clamped or not. */
  lemma ToIndexIsMonotone(b: Book, p: real, q: real)
    requires WellFormed(b) && p <= q
    ensures ToIndex(b, p) <= ToIndex(b, q)
  {
    DivideMono(p - b.base, q - b.base, b.tick);
    FloorMono((p - b.base) / b.tick + 0.5, (q - b.base) / b.tick + 0.5);
  }

  lemma QuarterFits(n: nat, t: int)
    requires n > 0 && -(n / 4) <= t <= n / 4
    ensures 0 <= n / 2 + t < n
  {
  }

  lemma ReachInTicks(b: Book, price: real)
    requires b.tick > 0.0 && InReach(b, price)
    ensures -(|b.bids.levels| / 4) <= Ticks(b, price) <= |b.bids.levels| / 4
  {
    var x, n := price - b.base, |b.bids.levels| / 4;
    if x < 0.0 {
      DivideNegated(x, b.tick);
      DivideMono(x, 0.0, b.tick);
    } else {
      DivideMono(0.0, x, b.tick);
    }
    var y := x / b.tick;
    assert -(n as real) <= y <= n as real;
    var f := (y + 0.5).Floor;
    assert f as real <= y + 0.5 < f as real + 1.0;
    FloorBetween(y, f, n);
  }

  lemma FloorBetween(y: real, f: int, n: int)
    requires -(n as real) <= y <= n as real && f as real <= y + 0.5 < f as real + 1.0
    ensures -n <= f <= n
  {
  }

  /** A price in reach is never clamped, and its level stands for a price at most half a tick away. */
  lemma InReachIsExact(b: Book, price: real)
    requires WellFormed(b) && InReach(b, price)
    ensures ToIndex(b, price) == Mid(b) + Ticks(b, price)
    ensures RealAbs(ToPrice(b, ToIndex(b, price)) - price) <= b.tick / 2.0
  {
    ReachInTicks(b, price);
    QuarterFits(|b.bids.levels|, Ticks(b, price));
    hide InReach, RealAbs;
    var f := Ticks(b, price) as real;
    NearestTick(price - b.base, b.tick);
    assert ToPrice(b, ToIndex(b, price)) == b.base + f * b.tick;
    Shifted(b.base, f * b.tick, price);
  }

  lemma Shifted(base: real, p: real, price: real)
    ensures RealAbs(base + p - price) == RealAbs(p - (price - base))
  {
  }

  lemma DivideThenTimes(x: real, t: real)
    requires t > 0.0
    ensures x / t * t == x
  {
  }

  /** Rounding to the nearest whole number of ticks moves a distance by at most half a tick. */
  lemma NearestTick(x: real, tick: real)
    requires tick > 0.0
    ensures RealAbs((x / tick + 0.5).Floor as real * tick - x) <= tick / 2.0
  {
    var y := x / tick;
    var g := (y + 0.5).Floor as real;
    DivideThenTimes(x, tick);
    HalfOf(g, y, tick, tick / 2.0);
    AbsWithin(g * tick, y * tick, x, tick / 2.0);
  }

  lemma AbsWithin(p: real, q: real, x: real, bound: real)
    requires p - q <= bound && q - p <= bound && q == x
    ensures RealAbs(p - x) <= bound
  {
  }

  lemma Distribute(a: real, b: real, t: real)
    ensures (a - b) * t == a * t - b * t
  {
  }

  lemma HalfOf(a: real, b: real, t: real, half: real)
    requires t > 0.0 && half + half == t && -0.5 <= a - b <= 0.5
    ensures a * t - b * t <= half && b * t - a * t <= half
  {
    Distribute(a, b, t);
    HalfBound(a - b, t, half);
  }

  lemma HalfBound(g: real, t: real, half: real)
    requires t > 0.0 && half + half == t && -0.5 <= g <= 0.5
    ensures g * t <= half && 0.0 - g * t <= half
  {
    ProductNonNegative(0.5 - g, t);
    Distribute(0.5, g, t);
    ProductNonNegative(g - (-0.5), t);
    Distribute(g, -0.5, t);
  }

  lemma ProductNonNegative(a: real, t: real)
    requires a >= 0.0 && t >= 0.0
    ensures a * t >= 0.0
  {
  }

  // ---------------------------------------------------------------------------
  // Operations
  // ---------------------------------------------------------------------------

  datatype Operation =
    | Reset(referencePrice: real)
    | BidLevel(price: real, quantity: real)
    | AskLevel(price: real, quantity: real)
    | Bbo(bidPrice: real, bidQuantity: real, askPrice: real, askQuantity: real)

  function ResetTo(b: Book, referencePrice: real): Book {
    var cleared := b.(bids := EmptySide(|b.bids.levels|), asks := EmptySide(|b.asks.levels|));
    if referencePrice > 0.0 then Recenter(cleared, referencePrice) else cleared.(base := 0.0, initialized := false)
  }

  /** A level update, and whether it was accepted. */
  function ApplyLevel(b: Book, bid: bool, price: real, quantity: real): (Book, bool)
    requires WellFormed(b)
  {
    if price <= 0.0 || quantity < 0.0 then (b, false)
    else
      var c := EnsureMappable(b, price);
      var i := ToIndex(c, price);
      if bid then (c.(bids := SetLevel(c.bids, true, i, quantity)), true)
      else (c.(asks := SetLevel(c.asks, false, i, quantity)), true)
  }

  function Positive(x: real): real {
    if x > 0.0 then x else 0.0
  }

  function ApplyBbo(b: Book, bidPrice: real, bidQuantity: real, askPrice: real, askQuantity: real): (Book, bool)
    requires WellFormed(b)
  {
    if bidPrice <= 0.0 || askPrice <= 0.0 || askPrice < bidPrice then (b, false)
    else
      var c := EnsureMappable(EnsureMappable(b, bidPrice), askPrice);
      (c.(bids := ReplaceBbo(c.bids, true, ToIndex(c, bidPrice), Positive(bidQuantity)),
          asks := ReplaceBbo(c.asks, false, ToIndex(c, askPrice), Positive(askQuantity))), true)
  }

  function Step(b: Book, op: Operation): (after: Book)
    requires WellFormed(b)
    ensures WellFormed(after)
  {
    match op
    case Reset(referencePrice) => ResetTo(b, referencePrice)
    case BidLevel(price, quantity) => ApplyLevel(b, true, price, quantity).0
    case AskLevel(price, quantity) => ApplyLevel(b, false, price, quantity).0
    case Bbo(bidPrice, bidQuantity, askPrice, askQuantity) =>
      ApplyBbo(b, bidPrice, bidQuantity, askPrice, askQuantity).0
  }

  function Run(b: Book, ops: seq<Operation>): (after: Book)
    requires WellFormed(b)
    ensures WellFormed(after)
  {
    if ops == [] then b else Step(Run(b, ops[..|ops| - 1]), ops[|ops| - 1])
  }

  function NewBook(tick: real, levelCount: nat): Book {
    Book(if tick > 0.0 then tick else 0.01, 0.0, false, EmptySide(levelCount), EmptySide(levelCount), 0)
  }

  // ---------------------------------------------------------------------------
  // The reported quote
  // ---------------------------------------------------------------------------

  datatype Quote = Quote(bidPrice: real, bidSize: real, askPrice: real, askSize: real)

  function BestQuote(b: Book): Option<Quote> {
    if b.bids.best < 0 || b.asks.best < 0 then None
    else if b.bids.best >= |b.bids.levels| || b.asks.best >= |b.asks.levels| then None
    else Some(Quote(ToPrice(b, b.bids.best), b.bids.levels[b.bids.best],
                    ToPrice(b, b.asks.best), b.asks.levels[b.asks.best]))
  }
}
