/** Prices and timestamps of a quote, from the numbers alone: exactly what is accepted, and as what. */
module SpotTable {
  import opened Wrappers
  import opened MachineWords
  import opened BrokerContracts
  import opened StepNormalization
  import opened SpotArithmetic

  // ---------------------------------------------------------------------------
  // Prices
  // ---------------------------------------------------------------------------

  lemma ScaledOrder(a: int, b: int, k: int)
    requires k > 0
    ensures a <= b <==> a * k <= b * k
    ensures a < b <==> a * k < b * k
  {
    if a < b {
      MulStep(a, b, k);
    } else if b < a {
      MulStep(b, a, k);
    }
  }

  lemma Coarser(raw: int, units: int, fine: int, coarse: int)
    requires fine > 0 && coarse > 0
    ensures 2 * (units * coarse) - coarse <= 2 * raw < 2 * (units * coarse) + coarse <==>
              2 * (units * (coarse * fine)) - coarse * fine <= 2 * (raw * fine)
              < 2 * (units * (coarse * fine)) + coarse * fine
  {
    ScaledOrder(2 * (units * coarse) - coarse, 2 * raw, fine);
    ScaledOrder(2 * raw, 2 * (units * coarse) + coarse, fine);
    Times(2 * (units * coarse), coarse, fine);
    Twice(units * coarse, fine);
    Twice(raw, fine);
    Regroup(units, coarse, fine);
  }

  lemma Times(a: int, b: int, k: int)
    ensures (a - b) * k == a * k - b * k && (a + b) * k == a * k + b * k
  {
  }

  lemma Twice(a: int, k: int)
    ensures 2 * a * k == 2 * (a * k)
  {
  }

  /** The value of `units` at `digits` decimals is nearest to `raw` at five, halves rounded up. */
  ghost predicate IsRescaled(raw: int, digits: nat, units: int) {
    2 * (units * 100_000) - 100_000 <= 2 * (raw * Pow10(digits)) < 2 * (units * 100_000) + 100_000
  }

  lemma FinerIff(raw: int, units: int, factor: int)
    ensures 2 * (units * 100_000) - 100_000 <= 2 * (raw * (factor * 100_000)) < 2 * (units * 100_000) + 100_000
            <==> units == raw * factor
  {
    Regroup(raw, factor, 100_000);
  }

  /** A spot price is accepted if and only if it is positive and fits; it is then the nearest at those decimals. */
  lemma SpotPriceIff(raw: u64, digits: int, d: Decimal64)
    ensures NormalizeSpotPrice(raw, digits) == Some(d) <==>
              && 0 < raw <= MAX_I64 && 0 <= digits <= 12 && d.scale == digits && IsRescaled(raw, digits, d.units)
  {
    if 0 < raw <= MAX_I64 && 0 <= digits <= 12 {
      assert Pow10(5) == 100_000;
      if digits >= 5 {
        Pow10Sum(digits - 5, 5);
        FinerIff(raw, d.units, Pow10(digits - 5));
      } else {
        Pow10Sum(5 - digits, digits);
        RoundedFits(raw, 5 - digits);
        Coarser(raw, d.units, Pow10(digits), Pow10(5 - digits));
        hide Pow10;
        RoundUpIff(raw, Pow10(5 - digits), d.units);
      }
      hide Pow10, RoundHalfAway;
    }
  }

  lemma RoundUpIff(raw: nat, p: nat, units: int)
    requires p > 0
    ensures RoundHalfAway(raw, p) == units <==> 2 * (units * p) - p <= 2 * raw < 2 * (units * p) + p
  {
    if units >= 0 {
      HalfUpIff(raw, p, units);
    } else {
      MulMono(units, -1, p);
    }
    hide HalfUp;
  }

  // ---------------------------------------------------------------------------
  // Timestamps
  // ---------------------------------------------------------------------------

  function UnitNs(unit: TimestampUnit): int {
    match unit
    case Seconds => 1_000_000_000
    case Milliseconds => 1_000_000
    case Microseconds => 1_000
    case Nanoseconds => 1
  }

  predicate FitsIn(raw: u64, unit: TimestampUnit) {
    raw * UnitNs(unit) <= 0xffff_ffff_ffff_ffff
  }

  /** Read in that unit, the timestamp fits and lies at most two minutes before and five seconds after the receipt. */
  predicate FreshIn(raw: u64, receipt: u64, unit: TimestampUnit) {
    && FitsIn(raw, unit)
    && receipt - 120_000_000_000 <= raw * UnitNs(unit) <= receipt + 5_000_000_000
  }

  /** A timestamp is ready if and only if it is fresh in exactly one unit; the proof is its reading in that unit. */
  lemma ReadyIff(raw: u64, receipt: u64, proof: TimestampProof)
    ensures IsVerdict(raw, receipt, Ready(proof)) <==>
              && receipt > 0 && FreshIn(raw, receipt, proof.unit)
              && (forall unit :: unit != proof.unit ==> !FreshIn(raw, receipt, unit))
              && proof.timestampNs == raw * UnitNs(proof.unit) && proof.receiptTimestampNs == receipt
              && proof.freshnessDeltaNs == receipt - raw * UnitNs(proof.unit)
  {
    forall i | 0 <= i < 4 ensures Qualifies(raw, receipt, i) <==> FreshIn(raw, receipt, UNITS[i]) {
      QualifiesIff(raw, receipt, i);
    }
    forall unit ensures 0 <= Index(unit) < 4 && UNITS[Index(unit)] == unit {
    }
    assert forall i, j :: 0 <= i < j < 4 ==> UNITS[i] != UNITS[j];
    if FreshIn(raw, receipt, proof.unit) {
      ProofIs(raw, receipt, Index(proof.unit));
    }
    hide Qualifies, FreshIn, ProofOf, UnitNs, NearestIsPast, NearestIsFuture;
    if IsVerdict(raw, receipt, Ready(proof)) {
      var i :| 0 <= i < 4 && OnlyQualifier(raw, receipt, i) && proof == ProofOf(raw, receipt, i);
      ProofIs(raw, receipt, i);
      forall unit | unit != proof.unit ensures !FreshIn(raw, receipt, unit) {
        assert Index(unit) != i;
      }
    } else if receipt > 0 && FreshIn(raw, receipt, proof.unit)
              && (forall unit :: unit != proof.unit ==> !FreshIn(raw, receipt, unit)) {
      assert OnlyQualifier(raw, receipt, Index(proof.unit));
    }
  }

  /** Further from the receipt, on the same side or mirrored on the other. */
  predicate IsFurther(receipt: int, near: int, far: int) {
    if near <= receipt then far < near || far > 2 * receipt - near else far > near || far < 2 * receipt - near
  }

  /** The reading fits, and every other one is further from the receipt. */
  ghost predicate IsNearestReading(raw: u64, receipt: u64, unit: TimestampUnit) {
    && FitsIn(raw, unit)
    && forall other :: other != unit && FitsIn(raw, other) ==>
         IsFurther(receipt, raw * UnitNs(unit), raw * UnitNs(other))
  }

  /** The receipt is known, the timestamp is fresh in no unit, and its nearest reading lies before the receipt. */
  ghost predicate IsOverdue(raw: u64, receipt: u64) {
    && receipt > 0 && (forall unit :: !FreshIn(raw, receipt, unit))
    && exists unit :: IsNearestReading(raw, receipt, unit) && raw * UnitNs(unit) < receipt
  }

  ghost predicate IsAhead(raw: u64, receipt: u64) {
    && receipt > 0 && (forall unit :: !FreshIn(raw, receipt, unit))
    && exists unit :: IsNearestReading(raw, receipt, unit) && raw * UnitNs(unit) > receipt
  }

  lemma UnitsAreIndexed(raw: u64, i: nat)
    requires i < 4
    ensures Index(UNITS[i]) == i
    ensures Readable(raw, i) <==> FitsIn(raw, UNITS[i])
    ensures Readable(raw, i) ==> Reading(raw, i) == raw * UnitNs(UNITS[i])
  {
    assert MULTIPLIERS[i] == UnitNs(UNITS[i]);
  }

  lemma EveryUnit(unit: TimestampUnit)
    ensures 0 <= Index(unit) < 4 && UNITS[Index(unit)] == unit
  {
  }

  lemma DistancesIff(raw: u64, receipt: u64, i: nat, j: nat)
    requires i < 4 && j < 4 && Readable(raw, i) && Readable(raw, j)
    ensures Distance(raw, receipt, i) < Distance(raw, receipt, j) <==>
              IsFurther(receipt, raw * UnitNs(UNITS[i]), raw * UnitNs(UNITS[j]))
  {
    UnitsAreIndexed(raw, i);
    UnitsAreIndexed(raw, j);
    hide Reading, Readable, UnitNs;
  }

  lemma NearestReadingIff(raw: u64, receipt: u64, i: nat)
    requires i < 4
    ensures StrictlyClosest(raw, receipt, i) <==> IsNearestReading(raw, receipt, UNITS[i])
  {
    hide Readable, FitsIn, UnitNs, IsFurther, Distance, Index;
    forall j | 0 <= j < 4
      ensures Index(UNITS[j]) == j && (Readable(raw, j) <==> FitsIn(raw, UNITS[j]))
      ensures Readable(raw, i) && Readable(raw, j) ==>
                (Distance(raw, receipt, i) < Distance(raw, receipt, j) <==>
                 IsFurther(receipt, raw * UnitNs(UNITS[i]), raw * UnitNs(UNITS[j])))
    {
      UnitsAreIndexed(raw, j);
      if Readable(raw, i) && Readable(raw, j) {
        DistancesIff(raw, receipt, i, j);
      }
    }
    hide UNITS;
    if IsNearestReading(raw, receipt, UNITS[i]) {
      forall j | 0 <= j < 4 && j != i && Readable(raw, j)
        ensures Distance(raw, receipt, i) < Distance(raw, receipt, j)
      {
        assert UNITS[j] != UNITS[i];
      }
    }
    if StrictlyClosest(raw, receipt, i) {
      forall other | other != UNITS[i] && FitsIn(raw, other)
        ensures IsFurther(receipt, raw * UnitNs(UNITS[i]), raw * UnitNs(other))
      {
        EveryUnit(other);
      }
    }
  }

  lemma NoneFreshIff(raw: u64, receipt: u64)
    ensures NoneQualifies(raw, receipt) <==> forall unit :: !FreshIn(raw, receipt, unit)
  {
    hide Qualifies, FreshIn;
    if NoneQualifies(raw, receipt) {
      forall unit ensures !FreshIn(raw, receipt, unit) {
        EveryUnit(unit);
        QualifiesIff(raw, receipt, Index(unit));
      }
    } else {
      var j :| 0 <= j < 4 && Qualifies(raw, receipt, j);
      QualifiesIff(raw, receipt, j);
    }
  }

  lemma NearestSideIff(raw: u64, receipt: u64)
    ensures receipt > 0 && NearestIsPast(raw, receipt) <==> IsOverdue(raw, receipt)
    ensures receipt > 0 && NearestIsFuture(raw, receipt) <==> IsAhead(raw, receipt)
  {
    NoneFreshIff(raw, receipt);
    hide NoneQualifies, FreshIn, StrictlyClosest, IsNearestReading, Reading, Readable, UnitNs, Index;
    if i :| 0 <= i < 4 && StrictlyClosest(raw, receipt, i) {
      NearestUnit(raw, receipt, i);
      assert IsNearestReading(raw, receipt, UNITS[i]);
      forall j | 0 <= j < 4 && StrictlyClosest(raw, receipt, j) ensures j == i {
        OneClosest(raw, receipt, i, j);
      }
      forall unit | IsNearestReading(raw, receipt, unit) ensures unit == UNITS[i] {
        NearestIndex(raw, receipt, unit);
        OneClosest(raw, receipt, i, Index(unit));
      }
    } else {
      forall unit ensures !IsNearestReading(raw, receipt, unit) {
        if IsNearestReading(raw, receipt, unit) {
          NearestIndex(raw, receipt, unit);
        }
      }
    }
  }

  lemma NearestUnit(raw: u64, receipt: u64, i: nat)
    requires i < 4 && StrictlyClosest(raw, receipt, i)
    ensures IsNearestReading(raw, receipt, UNITS[i])
    ensures Readable(raw, i) && Reading(raw, i) == raw * UnitNs(UNITS[i])
  {
    ClosestIsReadable(raw, receipt, i);
    NearestReadingIff(raw, receipt, i);
    UnitsAreIndexed(raw, i);
  }

  lemma NearestIndex(raw: u64, receipt: u64, unit: TimestampUnit)
    requires IsNearestReading(raw, receipt, unit)
    ensures 0 <= Index(unit) < 4 && UNITS[Index(unit)] == unit && StrictlyClosest(raw, receipt, Index(unit))
  {
    EveryUnit(unit);
    NearestReadingIff(raw, receipt, Index(unit));
  }

  lemma ClosestIsReadable(raw: u64, receipt: u64, i: nat)
    requires i < 4
    ensures StrictlyClosest(raw, receipt, i) ==> Readable(raw, i)
  {
  }

  /**
   A timestamp that is fresh in no unit is stale when one reading is nearest to the receipt and lies
   before it, and from the future when that reading lies after it.
   */
  lemma UntimelyIff(raw: u64, receipt: u64)
    ensures IsVerdict(raw, receipt, Stale) <==> IsOverdue(raw, receipt)
    ensures IsVerdict(raw, receipt, Future) <==> IsAhead(raw, receipt)
    ensures receipt > 0 && NearestIsPast(raw, receipt) <==> IsOverdue(raw, receipt)
    ensures receipt > 0 && NearestIsFuture(raw, receipt) <==> IsAhead(raw, receipt)
  {
    NearestSideIff(raw, receipt);
    NearestIsOneSided(raw, receipt);
    hide IsOverdue, IsAhead, Qualifies, StrictlyClosest, Reading, Readable, ProofOf;
  }

  function Index(unit: TimestampUnit): nat {
    match unit
    case Seconds => 0
    case Milliseconds => 1
    case Microseconds => 2
    case Nanoseconds => 3
  }

  lemma QualifiesIff(raw: u64, receipt: u64, i: nat)
    requires i < 4
    ensures Qualifies(raw, receipt, i) <==> FreshIn(raw, receipt, UNITS[i])
  {
    assert MULTIPLIERS[i] == UnitNs(UNITS[i]);
  }

  lemma ProofIs(raw: u64, receipt: u64, i: nat)
    requires i < 4 && Qualifies(raw, receipt, i)
    ensures var proof := ProofOf(raw, receipt, i);
            && proof.unit == UNITS[i] && proof.timestampNs == raw * UnitNs(proof.unit)
            && proof.receiptTimestampNs == receipt && proof.freshnessDeltaNs == receipt - proof.timestampNs
  {
    assert MULTIPLIERS[i] == UnitNs(UNITS[i]);
  }
}
