/**
 The arithmetic behind an accepted quote: rescaling a provider price to the symbol's digits, and
 deciding which time unit a raw timestamp is in from how close each reading is to its receipt.
 */
module SpotArithmetic {
  import opened Wrappers
  import opened MachineWords
  import opened BrokerContracts
  import opened StepNormalization

  // ---------------------------------------------------------------------------
  // Rounding half away from zero
  // ---------------------------------------------------------------------------

  function HalfUp(m: nat, d: nat): nat
    requires d > 0
  {
    m / d + if m % d * 2 >= d then 1 else 0
  }

  /** `n / d` rounded to the nearest integer, halves away from zero. */
  function RoundHalfAway(n: int, d: nat): int
    requires d > 0
  {
    if n < 0 then 0 - HalfUp(-n, d) else HalfUp(n, d)
  }

  /** `q` is the rounded quotient exactly when `m` lies in the half-open interval around `q * d`. */
  lemma HalfUpIff(m: nat, d: nat, q: nat)
    requires d > 0
    ensures HalfUp(m, d) == q <==> 2 * (q * d) - d <= 2 * m < 2 * (q * d) + d
  {
    var p, r := m / d, m % d;
    assert m == p * d + r;
    if q < p {
      MulStep(q, p, d);
    } else if q > p + 1 {
      MulStep(p + 1, q, d);
      assert (p + 1) * d == p * d + d;
    } else if q == p + 1 {
      assert q * d == p * d + d;
    }
  }

  lemma HalfUpIsMonotone(a: nat, b: nat, d: nat)
    requires d > 0 && a <= b
    ensures HalfUp(a, d) <= HalfUp(b, d)
  {
    HalfUpIff(a, d, HalfUp(a, d));
    HalfUpIff(b, d, HalfUp(b, d));
    if HalfUp(b, d) < HalfUp(a, d) {
      MulStep(HalfUp(b, d), HalfUp(a, d), d);
    }
  }

  lemma RoundIsMonotone(a: int, b: int, d: nat)
    requires d > 0 && a <= b
    ensures RoundHalfAway(a, d) <= RoundHalfAway(b, d)
  {
    hide HalfUp;
    if a >= 0 {
      HalfUpIsMonotone(a, b, d);
    } else if b < 0 {
      HalfUpIsMonotone(-b, -a, d);
    }
  }

  /** The rounded quotient is within half a unit of the exact one, and halves move away from zero. */
  lemma RoundIsNearest(n: int, d: nat)
    requires d > 0
    ensures 2 * Abs(RoundHalfAway(n, d) * d - n) <= d
    ensures 2 * Abs(RoundHalfAway(n, d) * d - n) == d ==> Abs(RoundHalfAway(n, d)) * d > Abs(n)
  {
    var q := HalfUp(Abs(n), d);
    HalfUpIff(Abs(n), d, q);
    hide HalfUp;
    if n < 0 {
      assert (0 - q) * d == 0 - q * d;
    }
  }

  lemma HalfUpFits(m: nat, d: nat)
    requires d >= 2
    ensures m <= TWO63 ==> HalfUp(m, d) < TWO63
  {
    if m <= TWO63 {
      FloorProduct(m, d);
      MulMono(2, d, m / d);
    }
  }

  // ---------------------------------------------------------------------------
  // Rescaling from five decimals
  // ---------------------------------------------------------------------------

  /** `units` at five decimals, expressed at `digits` decimals. */
  function NormalizeSignedScale5(units: i64, digits: int): Option<i64> {
    if digits < 0 || digits > MAX_SCALE then None
    else if digits >= 5 then
      if FitsI64(units * Pow10(digits - 5)) then Some(units * Pow10(digits - 5)) else None
    else
      RoundedFits(units, 5 - digits);
      Some(RoundHalfAway(units, Pow10(5 - digits)))
  }

  lemma RoundedFits(units: i64, shift: nat)
    requires shift > 0
    ensures FitsI64(RoundHalfAway(units, Pow10(shift)))
  {
    HalfUpFits(Abs(units), Pow10(shift));
  }

  function NormalizeSpotPrice(raw: u64, digits: int): Option<Decimal64> {
    if raw == 0 || raw > MAX_I64 then None
    else
      var units :- NormalizeSignedScale5(raw, digits);
      Some(Decimal64(units, digits))
  }

  /** Rescaling keeps the order of prices, whatever it rounds. */
  lemma NormalizeIsMonotone(a: i64, b: i64, digits: int)
    requires a <= b && NormalizeSignedScale5(a, digits).Some? && NormalizeSignedScale5(b, digits).Some?
    ensures NormalizeSignedScale5(a, digits).value <= NormalizeSignedScale5(b, digits).value
  {
    if digits < 5 {
      RoundIsMonotone(a, b, Pow10(5 - digits));
    } else {
      MulMono(a, b, Pow10(digits - 5));
    }
  }

  /** A bid that is not above its ask is not above it after rescaling either. */
  lemma SpreadSurvives(bid: u64, ask: u64, digits: int)
    requires bid <= ask && NormalizeSpotPrice(bid, digits).Some? && NormalizeSpotPrice(ask, digits).Some?
    ensures 0 <= NormalizeSpotPrice(bid, digits).value.units <= NormalizeSpotPrice(ask, digits).value.units
  {
    NormalizeIsMonotone(bid, ask, digits);
    NormalizeIsMonotone(0, bid, digits);
    hide NormalizeSignedScale5;
    assert NormalizeSignedScale5(0, digits) == Some(0) by {
      ZeroNormalizes(digits);
    }
  }

  lemma ZeroNormalizes(digits: int)
    requires 0 <= digits <= MAX_SCALE
    ensures NormalizeSignedScale5(0, digits) == Some(0)
  {
    if digits < 5 {
      HalfUpIff(0, Pow10(5 - digits), 0);
    }
  }

  lemma PowerDivides(d: nat, m: nat)
    requires d > 0 && m > 0
    ensures m * d > 0
  {
  }

  /** A positive price stays positive exactly when it is at least half a unit of the coarser scale. */
  lemma PositivePriceIff(raw: u64, digits: int)
    requires NormalizeSpotPrice(raw, digits).Some?
    ensures NormalizeSpotPrice(raw, digits).value.IsPositive() <==> digits >= 5 || 2 * raw >= Pow10(5 - digits)
  {
    if digits >= 5 {
      PowerDivides(Pow10(digits - 5), raw);
    } else {
      var d := Pow10(5 - digits);
      HalfUpIff(raw, d, 0);
      assert 0 * d == 0;
    }
  }

  // ---------------------------------------------------------------------------
  // Timestamps
  // ---------------------------------------------------------------------------

  datatype TimestampUnit = Seconds | Milliseconds | Microseconds | Nanoseconds

  const MULTIPLIERS: seq<u64> := [1_000_000_000, 1_000_000, 1_000, 1]
  const UNITS := [Seconds, Milliseconds, Microseconds, Nanoseconds]
  const MAX_AGE_NS := 120 * 1_000_000_000
  const MAX_FUTURE_NS := 5 * 1_000_000_000

  datatype TimestampProof = TimestampProof(
    unit: TimestampUnit,
    timestampNs: u64,
    receiptTimestampNs: u64,
    freshnessDeltaNs: i64)

  datatype Verdict = Ready(proof: TimestampProof) | UnitUnproven | Stale | Future

  /** The raw timestamp read in the unit `i`; readings beyond 64 bits are skipped. */
  predicate Readable(raw: u64, i: nat)
    requires i < 4
  {
    raw * MULTIPLIERS[i] <= MAX_U64
  }

  function Reading(raw: u64, i: nat): u64
    requires i < 4 && Readable(raw, i)
  {
    raw * MULTIPLIERS[i]
  }

  predicate InWindow(timestamp: u64, receipt: u64) {
    receipt - MAX_AGE_NS <= timestamp <= receipt + MAX_FUTURE_NS
  }

  predicate Qualifies(raw: u64, receipt: u64, i: nat)
    requires i < 4
  {
    Readable(raw, i) && InWindow(Reading(raw, i), receipt)
  }

  function Distance(raw: u64, receipt: u64, i: nat): nat
    requires i < 4 && Readable(raw, i)
  {
    Abs(receipt - Reading(raw, i))
  }

  function ProofOf(raw: u64, receipt: u64, i: nat): TimestampProof
    requires i < 4 && Qualifies(raw, receipt, i)
  {
    TimestampProof(UNITS[i], Reading(raw, i), receipt, receipt - Reading(raw, i))
  }

  ghost predicate OnlyQualifier(raw: u64, receipt: u64, i: nat)
    requires i < 4
  {
    Qualifies(raw, receipt, i) && forall j :: 0 <= j < 4 && j != i ==> !Qualifies(raw, receipt, j)
  }

  ghost predicate NoneQualifies(raw: u64, receipt: u64) {
    forall j :: 0 <= j < 4 ==> !Qualifies(raw, receipt, j)
  }

  /** The reading in unit `i` is nearer to the receipt than every other one. */
  ghost predicate StrictlyClosest(raw: u64, receipt: u64, i: nat)
    requires i < 4
  {
    Readable(raw, i) && forall j :: 0 <= j < 4 && j != i && Readable(raw, j) ==>
                          Distance(raw, receipt, i) < Distance(raw, receipt, j)
  }

  /** No reading is fresh and the nearest one lies before the receipt. */
  ghost predicate NearestIsPast(raw: u64, receipt: u64) {
    && NoneQualifies(raw, receipt)
    && exists i :: 0 <= i < 4 && StrictlyClosest(raw, receipt, i) && Reading(raw, i) < receipt
  }

  ghost predicate NearestIsFuture(raw: u64, receipt: u64) {
    && NoneQualifies(raw, receipt)
    && exists i :: 0 <= i < 4 && StrictlyClosest(raw, receipt, i) && Reading(raw, i) > receipt
  }

  /** What each verdict means. */
  ghost predicate IsVerdict(raw: u64, receipt: u64, v: Verdict) {
    && (v.Ready? ==> exists i :: 0 <= i < 4 && OnlyQualifier(raw, receipt, i) && v.proof == ProofOf(raw, receipt, i))
    && (v.Ready? <==> (receipt != 0 && exists i :: 0 <= i < 4 && OnlyQualifier(raw, receipt, i)))
    && (v.Stale? <==> (receipt != 0 && NearestIsPast(raw, receipt)))
    && (v.Future? <==> (receipt != 0 && NearestIsFuture(raw, receipt)))
  }

  lemma TwiceQualified(raw: u64, receipt: u64, a: nat, b: nat)
    requires a < b < 4 && Qualifies(raw, receipt, a) && Qualifies(raw, receipt, b)
    ensures raw * MULTIPLIERS[a] >= 1000 * (raw * MULTIPLIERS[b])
  {
    MulMono(1000 * MULTIPLIERS[b], MULTIPLIERS[a], raw);
  }

  /** The latest receipt, in nanoseconds after the epoch, at which a timestamp can be fresh in two units. */
  const LAST_AMBIGUOUS_RECEIPT := 120_125_125_125

  ghost predicate FreshInTwoUnits(raw: u64, receipt: u64) {
    exists a, b :: 0 <= a < b < 4 && Qualifies(raw, receipt, a) && Qualifies(raw, receipt, b)
  }

  lemma TwoUnitsNeedEarlyReceipt(raw: u64, receipt: u64, a: nat, b: nat)
    requires a < b < 4 && Qualifies(raw, receipt, a) && Qualifies(raw, receipt, b)
    ensures receipt <= LAST_AMBIGUOUS_RECEIPT
  {
    TwiceQualified(raw, receipt, a, b);
  }

  /** A timestamp as old as may be, read as microseconds and as nanoseconds. */
  function AmbiguousTimestamp(receipt: u64): u64 {
    if receipt <= MAX_AGE_NS then 0 else receipt - MAX_AGE_NS
  }

  /** Some timestamp is fresh in two units exactly up to a little over two minutes after the epoch. */
  lemma AmbiguousIff(receipt: u64)
    requires receipt > 0
    ensures (exists raw: u64 :: FreshInTwoUnits(raw, receipt)) <==> receipt <= LAST_AMBIGUOUS_RECEIPT
  {
    if receipt <= LAST_AMBIGUOUS_RECEIPT {
      var raw := AmbiguousTimestamp(receipt);
      assert Qualifies(raw, receipt, 2) && Qualifies(raw, receipt, 3);
      assert FreshInTwoUnits(raw, receipt);
    } else {
      forall raw: u64 ensures !FreshInTwoUnits(raw, receipt) {
        forall a, b | 0 <= a < b < 4 && Qualifies(raw, receipt, a) && Qualifies(raw, receipt, b) ensures false {
          TwoUnitsNeedEarlyReceipt(raw, receipt, a, b);
        }
      }
    }
  }

  /** From then on a timestamp is proved exactly when it is fresh in some unit at all. */
  lemma ReadyIffFreshInSomeUnit(raw: u64, receipt: u64, v: Verdict)
    requires receipt > LAST_AMBIGUOUS_RECEIPT && IsVerdict(raw, receipt, v)
    ensures v.Ready? <==> exists i :: 0 <= i < 4 && Qualifies(raw, receipt, i)
  {
    AmbiguousIff(receipt);
    assert !FreshInTwoUnits(raw, receipt);
    hide Qualifies, Readable, NearestIsPast, NearestIsFuture, ProofOf;
    if i :| 0 <= i < 4 && Qualifies(raw, receipt, i) {
      assert OnlyQualifier(raw, receipt, i);
    }
  }

  /** Up to then some fresh timestamp is refused because its unit cannot be told. */
  lemma AmbiguousIsRefused(receipt: u64, v: Verdict)
    requires 0 < receipt <= LAST_AMBIGUOUS_RECEIPT && IsVerdict(AmbiguousTimestamp(receipt), receipt, v)
    ensures Qualifies(AmbiguousTimestamp(receipt), receipt, 3) && v == UnitUnproven
  {
    var raw := AmbiguousTimestamp(receipt);
    assert Qualifies(raw, receipt, 2) && Qualifies(raw, receipt, 3);
    hide Qualifies, Readable, StrictlyClosest, ProofOf, AmbiguousTimestamp;
  }

  lemma OneClosest(raw: u64, receipt: u64, i: nat, j: nat)
    requires i < 4 && j < 4 && StrictlyClosest(raw, receipt, i) && StrictlyClosest(raw, receipt, j)
    ensures i == j
  {
  }

  lemma NearestIsOneSided(raw: u64, receipt: u64)
    ensures !NearestIsPast(raw, receipt) || !NearestIsFuture(raw, receipt)
  {
  }

  /** A verdict is determined by the raw timestamp and the receipt. */
  lemma VerdictIsUnique(raw: u64, receipt: u64, v: Verdict, w: Verdict)
    requires IsVerdict(raw, receipt, v) && IsVerdict(raw, receipt, w)
    ensures v == w
  {
    hide Qualifies, Readable, NearestIsPast, NearestIsFuture, ProofOf;
    NearestIsOneSided(raw, receipt);
    if v.Ready? {
      var i :| 0 <= i < 4 && OnlyQualifier(raw, receipt, i) && v.proof == ProofOf(raw, receipt, i);
      var j :| 0 <= j < 4 && OnlyQualifier(raw, receipt, j) && w.proof == ProofOf(raw, receipt, j);
      assert i == j;
    }
  }

  ghost function Classify(raw: u64, receipt: u64): (v: Verdict)
    ensures IsVerdict(raw, receipt, v)
  {
    if receipt == 0 then UnitUnproven
    else if exists i :: 0 <= i < 4 && OnlyQualifier(raw, receipt, i) then
      var i :| 0 <= i < 4 && OnlyQualifier(raw, receipt, i);
      Ready(ProofOf(raw, receipt, i))
    else if NearestIsPast(raw, receipt) then NearestIsOneSided(raw, receipt); Stale
    else if NearestIsFuture(raw, receipt) then Future
    else UnitUnproven
  }
}
