/**
 Fixed-point money arithmetic at scale 8. Every public operation is the exact rational, rounded in
 the requested mode, or nothing when that integer does not fit a signed 64-bit word.
 */
module FinancialMath {
  import opened Wrappers
  import opened MachineWords
  import opened WideArithmetic

  const SCALE := 8
  const SCALE_FACTOR: i64 := 100_000_000

  datatype Rounding = TowardZero | RejectUnaligned | NearestTiesAwayFromZero

  // ---------------------------------------------------------------------------
  // Rounding
  // ---------------------------------------------------------------------------

  /** What the three modes mean: `x` is the integer chosen for the rational `num / den`. */
  ghost predicate IsRounding(num: int, den: int, mode: Rounding, x: int)
    requires den != 0
  {
    match mode
    case TowardZero =>
      // the largest magnitude that does not exceed the rational's, on the same side of zero
      && (x != 0 ==> (x < 0) == ((num < 0) != (den < 0)))
      && Abs(x) * Abs(den) <= Abs(num) < (Abs(x) + 1) * Abs(den)
    case RejectUnaligned =>
      x * den == num
    case NearestTiesAwayFromZero =>
      Nearest(num, x * den, Abs(den))
  }

  /** `p` is at most half of `d` away from `n`; exactly half only on the side away from zero. */
  ghost predicate Nearest(n: int, p: int, d: nat) {
    && 2 * Abs(n - p) <= d
    && (2 * Abs(n - p) == d ==> Abs(p) > Abs(n))
  }

  function WithSign(magnitude: nat, num: int, den: int): int {
    if (num < 0) != (den < 0) then 0 - magnitude else magnitude
  }

  /** The rational `num / den` rounded to an integer; nothing when an alignment is demanded and missing. */
  function Rounded(num: int, den: int, mode: Rounding): Option<int>
    requires den != 0
  {
    var q, r := Abs(num) / Abs(den), Abs(num) % Abs(den);
    match mode
    case TowardZero => Some(WithSign(q, num, den))
    case RejectUnaligned => if r == 0 then Some(WithSign(q, num, den)) else None
    case NearestTiesAwayFromZero => Some(WithSign(NearestQuotient(Abs(num), Abs(den)), num, den))
  }

  function NearestQuotient(n: nat, d: nat): nat
    requires d > 0
  {
    if 2 * (n % d) >= d then n / d + 1 else n / d
  }

  /** `Rounded` returns exactly the integer its mode describes, and that integer is unique. */
  lemma RoundedIsTheRounding(num: int, den: int, mode: Rounding, x: int)
    requires den != 0
    ensures Rounded(num, den, mode) == Some(x) <==> IsRounding(num, den, mode, x)
  {
    hide Rounded, IsRounding;
    match mode
    case TowardZero =>
      TruncatedIsTheRounding(num, den, x);
    case RejectUnaligned =>
      AlignedIsTheRounding(num, den, x);
    case NearestTiesAwayFromZero =>
      NearestIsTheRounding(num, den, x);
  }

  lemma TruncatedIsTheRounding(num: int, den: int, x: int)
    requires den != 0
    ensures Rounded(num, den, TowardZero) == Some(x) <==> IsRounding(num, den, TowardZero, x)
  {
    TowardZeroUnsigned(Abs(num), Abs(den), Abs(x));
  }

  lemma AlignedIsTheRounding(num: int, den: int, x: int)
    requires den != 0
    ensures Rounded(num, den, RejectUnaligned) == Some(x) <==> IsRounding(num, den, RejectUnaligned, x)
  {
    AbsProduct(x, den);
    if x * den == num {
      DivModUnique(Abs(num), Abs(den), Abs(x), 0);
    } else if Abs(num) % Abs(den) == 0 {
      UnsignedProduct(Abs(num) / Abs(den), num, den);
    }
  }

  lemma NearestIsTheRounding(num: int, den: int, x: int)
    requires den != 0
    ensures Rounded(num, den, NearestTiesAwayFromZero) == Some(x) <==> IsRounding(num, den, NearestTiesAwayFromZero, x)
  {
    NearestUnsigned(Abs(num), Abs(den), Abs(x));
    if x == WithSign(Abs(x), num, den) {
      SignedDistance(num, den, x);
    } else if Nearest(num, x * den, Abs(den)) {
      NearestNeedsSameSide(num, den, x);
    }
  }

  lemma TowardZeroUnsigned(n: nat, d: nat, x: nat)
    requires d > 0
    ensures x == n / d <==> x * d <= n < (x + 1) * d
  {
    assert (x + 1) * d == x * d + d;
    if x * d <= n < (x + 1) * d {
      DivModUnique(n, d, x, n - x * d);
    }
  }

  /** On the same side of zero, distances are the distances of the magnitudes. */
  lemma SignedDistance(num: int, den: int, x: int)
    requires den != 0 && x == WithSign(Abs(x), num, den)
    ensures Nearest(num, x * den, Abs(den)) <==> Nearest(Abs(num), Abs(x) * Abs(den), Abs(den))
  {
    AbsProduct(x, den);
  }

  lemma UnsignedProduct(q: nat, num: int, den: int)
    requires den != 0 && q * Abs(den) == Abs(num)
    ensures WithSign(q, num, den) * den == num
  {
    AbsProduct(WithSign(q, num, den), den);
  }

  lemma NearestUnsigned(n: nat, d: nat, x: nat)
    requires d > 0
    ensures x == NearestQuotient(n, d) <==> Nearest(n, x * d, d)
  {
    var q, r := n / d, n % d;
    assert n == q * d + r;
    assert (q + 1) * d == q * d + d;
    if x > q + 1 {
      MulStep(q + 1, x, d);
    } else if x < q {
      MulStep(x, q, d);
    }
  }

  /** An integer on the wrong side of zero is never within half a unit. */
  lemma NearestNeedsSameSide(num: int, den: int, x: int)
    requires den != 0 && Nearest(num, x * den, Abs(den))
    ensures x == WithSign(Abs(x), num, den)
  {
    AbsProduct(x, den);
    if x != 0 {
      MulMono(1, Abs(x), Abs(den));
    }
  }

  // ---------------------------------------------------------------------------
  // The word-level operations compute the exact rounded rational
  // ---------------------------------------------------------------------------

  /** The rounded rational, when it exists and fits a signed word. */
  function Exact(num: int, den: int, mode: Rounding): Option<i64> {
    if den == 0 then None else
    var x :- Rounded(num, den, mode);
    if FitsI64(x) then Some(x) else None
  }

  method SignedQuotient(numerator: UInt128, denominator: u64, negative: bool, rounding: Rounding)
    returns (result: Option<i64>)
    requires denominator > 0
    ensures result == Exact(if negative then 0 - numerator.Value() else numerator.Value(), denominator, rounding)
  {
    ghost var n := numerator.Value();
    var wide, remainder := DivideWide(numerator, denominator);
    if wide == None {
      return None;
    }
    var quotient := wide.value;

    if rounding == RejectUnaligned && remainder != 0 {
      return None;
    }
    if rounding == NearestTiesAwayFromZero && remainder >= denominator / 2 + denominator % 2 {
      if quotient == MAX_U64 {
        return None;
      }
      quotient := quotient + 1;
    }

    var positiveLimit: u64 := MAX_I64;
    var negativeLimit: u64 := positiveLimit + 1;
    if (!negative && quotient > positiveLimit) || (negative && quotient > negativeLimit) {
      return None;
    }
    if negative && quotient == negativeLimit {
      return Some(MIN_I64);
    }
    result := Some(if negative then 0 - quotient else quotient);
  }

  /** Only the magnitudes and the combined sign matter. */
  lemma ExactFromMagnitudes(num: int, den: int, mode: Rounding, negative: bool)
    requires den != 0
    requires num != 0 ==> negative == ((num < 0) != (den < 0))
    ensures Exact(num, den, mode) == Exact(if negative then 0 - Abs(num) else Abs(num), Abs(den), mode)
  {
    var signed: int := if negative then 0 - Abs(num) else Abs(num);
    assert Abs(signed) == Abs(num) && Abs(Abs(den)) == Abs(den);
    if num == 0 {
      DivModUnique(0, Abs(den), 0, 0);
      assert Rounded(num, den, mode) == Some(0) == Rounded(signed, Abs(den), mode);
    } else {
      assert Rounded(num, den, mode) == Rounded(signed, Abs(den), mode);
    }
  }

  function ScaledProduct(lhs: i64, rhs: i64, rounding: Rounding): Option<i64> {
    Exact(lhs * rhs, SCALE_FACTOR, rounding)
  }

  function ScaledRatio(numerator: i64, denominator: i64, rounding: Rounding): Option<i64> {
    Exact(numerator * SCALE_FACTOR, denominator, rounding)
  }

  function ProportionalUnits(total: i64, part: i64, whole: i64, rounding: Rounding): Option<i64> {
    Exact(total * part, whole, rounding)
  }

  method ComputeScaledProduct(lhs: i64, rhs: i64, rounding: Rounding) returns (result: Option<i64>)
    ensures result == ScaledProduct(lhs, rhs, rounding)
  {
    var negative := (lhs < 0) != (rhs < 0);
    AbsProduct(lhs, rhs);
    ExactFromMagnitudes(lhs * rhs, SCALE_FACTOR, rounding, negative);
    result := SignedQuotient(MultiplyWide(Magnitude(lhs), Magnitude(rhs)), SCALE_FACTOR, negative, rounding);
  }

  method ComputeScaledRatio(numerator: i64, denominator: i64, rounding: Rounding) returns (result: Option<i64>)
    ensures result == ScaledRatio(numerator, denominator, rounding)
  {
    if denominator == 0 {
      return None;
    }
    var negative := (numerator < 0) != (denominator < 0);
    AbsProduct(numerator, SCALE_FACTOR);
    ExactFromMagnitudes(numerator * SCALE_FACTOR, denominator, rounding, negative);
    result := SignedQuotient(MultiplyWide(Magnitude(numerator), SCALE_FACTOR),
                             Magnitude(denominator), negative, rounding);
  }

  method ComputeProportionalUnits(total: i64, part: i64, whole: i64, rounding: Rounding)
    returns (result: Option<i64>)
    ensures result == ProportionalUnits(total, part, whole, rounding)
  {
    if whole == 0 {
      return None;
    }
    var negative := ((total < 0) != (part < 0)) != (whole < 0);
    AbsProduct(total, part);
    ExactFromMagnitudes(total * part, whole, rounding, negative);
    result := SignedQuotient(MultiplyWide(Magnitude(total), Magnitude(part)),
                             Magnitude(whole), negative, rounding);
  }

  /** An exact operation yields a value precisely when some word is the rounded rational. */
  lemma ExactIffRepresentable(num: int, den: int, mode: Rounding, x: i64)
    requires den != 0
    ensures Exact(num, den, mode) == Some(x) <==> IsRounding(num, den, mode, x)
  {
    RoundedIsTheRounding(num, den, mode, x);
  }

  // ---------------------------------------------------------------------------
  // Public operations
  // ---------------------------------------------------------------------------

  type Price = i64
  type Quantity = i64
  type Money = i64
  type Fraction = i64

  function CheckedAdd(lhs: i64, rhs: i64): (sum: Option<i64>)
    ensures sum == if FitsI64(lhs + rhs) then Some(lhs + rhs) else None
  {
    if (rhs > 0 && lhs > MAX_I64 - rhs) || (rhs < 0 && lhs < MIN_I64 - rhs) then None
    else Some(lhs + rhs)
  }

  function CheckedSubtract(lhs: i64, rhs: i64): (difference: Option<i64>)
    ensures difference == if FitsI64(lhs - rhs) then Some(lhs - rhs) else None
  {
    if (rhs > 0 && lhs < MIN_I64 + rhs) || (rhs < 0 && lhs > MAX_I64 + rhs) then None
    else Some(lhs - rhs)
  }

  function Notional(price: Price, quantity: Quantity): Option<Money> {
    ScaledProduct(price, quantity, NearestTiesAwayFromZero)
  }

  function Fee(notional: Money, rate: Fraction): Option<Money> {
    ScaledProduct(notional, rate, NearestTiesAwayFromZero)
  }

  function ApplySlippage(marketPrice: Price, slippageRate: Fraction, buySide: bool): Option<Price> {
    if marketPrice <= 0 || slippageRate < 0 || slippageRate >= SCALE_FACTOR then None else
    var multiplier := if buySide then SCALE_FACTOR + slippageRate else SCALE_FACTOR - slippageRate;
    var units :- ScaledProduct(marketPrice, multiplier, NearestTiesAwayFromZero);
    if units > 0 then Some(units) else None
  }

  function QuantityForNotional(notionalBudget: Money, price: Price): Option<Quantity> {
    if notionalBudget < 0 || price <= 0 then None
    else ScaledRatio(notionalBudget, price, TowardZero)
  }

  function NotionalBeforeFee(totalBudget: Money, feeRate: Fraction): Option<Money> {
    if totalBudget < 0 || feeRate < 0 then None else
    var denominator :- CheckedAdd(SCALE_FACTOR, feeRate);
    if denominator <= 0 then None else ScaledRatio(totalBudget, denominator, TowardZero)
  }

  function AveragePrice(costBasis: Money, quantity: Quantity): Option<Price> {
    if costBasis < 0 || quantity <= 0 then None
    else ScaledRatio(costBasis, quantity, NearestTiesAwayFromZero)
  }

  function Proportional(total: Money, part: Quantity, whole: Quantity): Option<Money> {
    if part < 0 || whole <= 0 || part > whole then None
    else ProportionalUnits(total, part, whole, NearestTiesAwayFromZero)
  }

  /** The nearest whole number of units to a rational, ties away from zero. */
  ghost predicate IsNearest(num: int, den: int, x: int)
    requires den != 0
  {
    IsRounding(num, den, NearestTiesAwayFromZero, x)
  }

  /** A rational rounded toward zero. */
  ghost predicate IsTruncated(num: int, den: int, x: int)
    requires den != 0
  {
    IsRounding(num, den, TowardZero, x)
  }

  lemma NotionalIff(price: Price, quantity: Quantity, x: Money)
    ensures Notional(price, quantity) == Some(x) <==> IsNearest(price * quantity, 100_000_000, x)
  {
    ExactIffRepresentable(price * quantity, SCALE_FACTOR, NearestTiesAwayFromZero, x);
  }

  lemma FeeIff(notional: Money, rate: Fraction, x: Money)
    ensures Fee(notional, rate) == Some(x) <==> IsNearest(notional * rate, 100_000_000, x)
  {
    ExactIffRepresentable(notional * rate, SCALE_FACTOR, NearestTiesAwayFromZero, x);
  }

  /** The slipped price, up for a buy and down for a sale, if it is positive. */
  lemma ApplySlippageIff(market: Price, rate: Fraction, buySide: bool, x: Price)
    ensures ApplySlippage(market, rate, buySide) == Some(x) <==>
              && market > 0 && 0 <= rate < 100_000_000 && x > 0
              && IsNearest(market * (100_000_000 + (if buySide then rate else 0 - rate)), 100_000_000, x)
  {
    if market > 0 && 0 <= rate < SCALE_FACTOR {
      var multiplier: i64 := if buySide then SCALE_FACTOR + rate else SCALE_FACTOR - rate;
      assert multiplier == 100_000_000 + (if buySide then rate else 0 - rate);
      hide Exact, IsNearest;
      assert ScaledProduct(market, multiplier, NearestTiesAwayFromZero) == Some(x)
        <==> IsNearest(market * multiplier, 100_000_000, x) by {
        FeeIff(market, multiplier, x);
      }
    }
  }

  lemma QuantityForNotionalIff(budget: Money, price: Price, x: Quantity)
    ensures QuantityForNotional(budget, price) == Some(x) <==>
              budget >= 0 && price > 0 && IsTruncated(budget * 100_000_000, price, x)
  {
    if price != 0 {
      ExactIffRepresentable(budget * SCALE_FACTOR, price, TowardZero, x);
    }
  }

  lemma NotionalBeforeFeeIff(budget: Money, rate: Fraction, x: Money)
    ensures NotionalBeforeFee(budget, rate) == Some(x) <==>
              && budget >= 0 && 0 <= rate <= MAX_I64 - 100_000_000
              && IsTruncated(budget * 100_000_000, 100_000_000 + rate, x)
  {
    if rate >= 0 {
      ExactIffRepresentable(budget * SCALE_FACTOR, SCALE_FACTOR + rate, TowardZero, x);
    }
  }

  lemma AveragePriceIff(cost: Money, quantity: Quantity, x: Price)
    ensures AveragePrice(cost, quantity) == Some(x) <==>
              cost >= 0 && quantity > 0 && IsNearest(cost * 100_000_000, quantity, x)
  {
    if quantity != 0 {
      ExactIffRepresentable(cost * SCALE_FACTOR, quantity, NearestTiesAwayFromZero, x);
    }
  }

  lemma ProportionalIff(total: Money, part: Quantity, whole: Quantity, x: Money)
    ensures Proportional(total, part, whole) == Some(x) <==>
              0 <= part <= whole && whole > 0 && IsNearest(total * part, whole, x)
  {
    if whole != 0 {
      ExactIffRepresentable(total * part, whole, NearestTiesAwayFromZero, x);
    }
  }

  /** Rounding never crosses an integer: it is monotone around every integer bound. */
  lemma RoundedBetween(num: int, den: int, mode: Rounding, lo: int, hi: int)
    requires den > 0 && 0 <= lo && lo * den <= num <= hi * den
    requires Rounded(num, den, mode).Some?
    ensures lo <= Rounded(num, den, mode).value <= hi
  {
    var q, r := num / den, num % den;
    assert num == q * den + r;
    if q < lo {
      MulStep(q, lo, den);
    }
    if q > hi {
      MulStep(hi, q, den);
    } else if q == hi {
      assert r == 0;
    }
  }

  /** The part of a non-negative total allotted to `part` of `whole` is between nothing and all of it. */
  lemma ProportionalWithin(total: Money, part: Quantity, whole: Quantity)
    requires 0 <= total && 0 <= part <= whole && 0 < whole
    ensures Proportional(total, part, whole).Some?
    ensures 0 <= Proportional(total, part, whole).value <= total
    ensures part == whole ==> Proportional(total, part, whole).value == total
  {
    MulMono(part, whole, total);
    MulMono(0, part, total);
    RoundedBetween(total * part, whole, NearestTiesAwayFromZero, 0, total);
    if part == whole {
      RoundedBetween(total * part, whole, NearestTiesAwayFromZero, total, total);
    }
  }

  /** Slippage always works against the trader: a buy never fills below the market, a sale never above it. */
  lemma SlippageIsAdverse(price: Price, rate: Fraction, buySide: bool)
    requires ApplySlippage(price, rate, buySide).Some?
    ensures if buySide then price <= ApplySlippage(price, rate, buySide).value <= 2 * price
            else 0 < ApplySlippage(price, rate, buySide).value <= price
  {
    var multiplier := if buySide then SCALE_FACTOR + rate else SCALE_FACTOR - rate;
    if buySide {
      MulMono(SCALE_FACTOR, multiplier, price);
      MulMono(multiplier, 2 * SCALE_FACTOR, price);
      RoundedBetween(price * multiplier, SCALE_FACTOR, NearestTiesAwayFromZero, price, 2 * price);
    } else {
      MulMono(multiplier, SCALE_FACTOR, price);
      MulMono(0, multiplier, price);
      RoundedBetween(price * multiplier, SCALE_FACTOR, NearestTiesAwayFromZero, 0, price);
    }
  }

  // ---------------------------------------------------------------------------
  // Sizing
  // ---------------------------------------------------------------------------

  /**
   A quantity sized from a budget is always affordable: whatever the three roundings do, the cost
   is positive and the cost plus its fee fits the budget.
   */
  lemma SizingIsAffordable(budget: Money, price: Price, feeRate: Fraction)
    requires 0 <= budget && 0 < price && 0 <= feeRate < SCALE_FACTOR
    requires NotionalBeforeFee(budget, feeRate).Some?
    requires QuantityForNotional(NotionalBeforeFee(budget, feeRate).value, price).Some?
    requires QuantityForNotional(NotionalBeforeFee(budget, feeRate).value, price).value > 0
    ensures var quantity := QuantityForNotional(NotionalBeforeFee(budget, feeRate).value, price).value;
            && Notional(price, quantity).Some?
            && Notional(price, quantity).value > 0
            && Fee(Notional(price, quantity).value, feeRate).Some?
            && 0 <= Fee(Notional(price, quantity).value, feeRate).value
            && Notional(price, quantity).value + Fee(Notional(price, quantity).value, feeRate).value <= budget
  {
    var net := NotionalBeforeFee(budget, feeRate).value;
    var quantity := QuantityForNotional(net, price).value;
    FloorBound(budget * SCALE_FACTOR, SCALE_FACTOR + feeRate);
    FloorBound(net * SCALE_FACTOR, price);
    CostWithinNet(price, quantity, net);
    FeeWithinRest(Notional(price, quantity).value, net, budget, feeRate);
  }

  lemma FloorBound(num: int, den: int)
    requires num >= 0 && den > 0
    ensures Rounded(num, den, TowardZero).value * den <= num
    ensures num < Rounded(num, den, TowardZero).value * den + den
    ensures Rounded(num, den, TowardZero).value >= 0
  {
  }

  /** The rounded cost of the floored quantity is positive and does not exceed the net budget. */
  lemma CostWithinNet(price: Price, quantity: Quantity, net: Money)
    requires price > 0 && quantity > 0
    requires quantity * price <= net * SCALE_FACTOR < quantity * price + price
    ensures Notional(price, quantity).Some?
    ensures 1 <= Notional(price, quantity).value <= net
  {
    MulMono(1, quantity, price);
    var gross := price * quantity;
    assert gross == quantity * price && price <= gross;
    RoundedBetween(gross, SCALE_FACTOR, NearestTiesAwayFromZero, 0, net);
  }

  /** What the net budget leaves over covers the rounded fee. */
  lemma FeeWithinRest(cost: Money, net: Money, budget: Money, feeRate: Fraction)
    requires 0 <= cost <= net && 0 <= feeRate
    requires net * (SCALE_FACTOR + feeRate) <= budget * SCALE_FACTOR
    ensures Fee(cost, feeRate).Some?
    ensures 0 <= Fee(cost, feeRate).value <= budget - net
  {
    MulMono(cost, net, feeRate);
    MulMono(0, cost, feeRate);
    assert net * (SCALE_FACTOR + feeRate) == net * SCALE_FACTOR + net * feeRate;
    RoundedBetween(cost * feeRate, SCALE_FACTOR, NearestTiesAwayFromZero, 0, budget - net);
  }
}
