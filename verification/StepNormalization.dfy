/**
 Normalizing order quantities and prices to an instrument's step. Rescaling and rounding always go
 toward zero, so a normalized order never exposes more than the request did.
 */
module StepNormalization {
  import opened Wrappers
  import opened MachineWords
  import opened BrokerContracts

  function Pow10(n: nat): (p: nat)
    ensures p > 0
  {
    if n == 0 then 1 else 10 * Pow10(n - 1)
  }

  lemma {:induction false} Pow10Sum(a: nat, b: nat)
    ensures Pow10(a + b) == Pow10(a) * Pow10(b)
  {
    if a > 0 {
      Pow10Sum(a - 1, b);
    }
  }

  /** Division that truncates toward zero. */
  function Truncated(n: int, d: int): int
    requires d > 0
  {
    if n < 0 then -((-n) / d) else n / d
  }

  /** The number a decimal denotes, in units of 10^-12. */
  function Worth(d: Decimal64): int
    requires d.scale <= MAX_SCALE
  {
    d.units * Pow10(MAX_SCALE - d.scale)
  }

  /** A decimal at another scale: exact when the scale grows, truncated when it shrinks. */
  function Rescale(value: Decimal64, targetScale: byte): Option<Decimal64> {
    if value.scale > MAX_SCALE || targetScale > MAX_SCALE then None
    else if value.scale <= targetScale then
      var units := value.units * Pow10(targetScale - value.scale);
      if FitsI64(units) then Some(Decimal64(units, targetScale)) else None
    else
      TruncatedFits(value.units, Pow10(value.scale - targetScale));
      Some(Decimal64(Truncated(value.units, Pow10(value.scale - targetScale)), targetScale))
  }

  lemma TruncatedFits(units: i64, p: nat)
    requires p > 0
    ensures FitsI64(Truncated(units, p))
  {
    DivShrinks(Abs(units), p);
  }

  lemma DivShrinks(n: nat, d: nat)
    requires d > 0
    ensures 0 <= n / d <= n
  {
    MulMono(1, d, n / d);
  }

  method RescaleTowardZero(value: Decimal64, targetScale: byte) returns (result: Option<Decimal64>)
    ensures result == Rescale(value, targetScale)
  {
    if value.scale > MAX_SCALE || targetScale > MAX_SCALE {
      return None;
    }
    var units: i64, scale := value.units, value.scale;
    while scale < targetScale
      invariant scale <= targetScale || scale == value.scale
      invariant value.scale <= scale
      invariant value.scale <= targetScale ==> units == value.units * Pow10(scale - value.scale)
      invariant value.scale > targetScale ==> units == value.units
      decreases targetScale - scale
    {
      if units > MAX_I64 / 10 || units < Truncated(MIN_I64, 10) {
        GrowthOverflows(units, targetScale - scale);
        RegroupGrowth(value.units, scale - value.scale, targetScale - scale);
        return None;
      }
      RegroupGrowth(value.units, scale - value.scale, 1);
      units := units * 10;
      scale := scale + 1;
    }
    while scale > targetScale
      invariant targetScale <= scale
      invariant value.scale <= targetScale ==> scale == targetScale && units == value.units * Pow10(scale - value.scale)
      invariant value.scale > targetScale ==>
                  scale <= value.scale && units == Truncated(value.units, Pow10(value.scale - scale))
    {
      TruncateAgain(value.units, value.scale - scale);
      TruncatedFits(units, 10);
      units := Truncated(units, 10);
      scale := scale - 1;
    }
    result := Some(Decimal64(units, targetScale));
  }

  lemma RegroupGrowth(units: int, a: nat, b: nat)
    ensures units * Pow10(a + b) == units * Pow10(a) * Pow10(b)
    ensures Pow10(1) == 10
  {
    Pow10Sum(a, b);
  }

  /** One step out of range stays out of range however far the scale still grows. */
  lemma GrowthOverflows(units: i64, steps: nat)
    requires steps > 0 && (units > MAX_I64 / 10 || units < Truncated(MIN_I64, 10))
    ensures !FitsI64(units * Pow10(steps))
  {
    var p := Pow10(steps - 1);
    MulMono(1, p, Abs(units));
    assert units * Pow10(steps) == 10 * (units * p);
    if units > 0 {
      assert units * p >= units;
    } else {
      assert units * p <= units;
    }
  }

  lemma TruncateAgain(units: int, k: nat)
    ensures Truncated(Truncated(units, Pow10(k)), 10) == Truncated(units, Pow10(k + 1))
  {
    hide Pow10;
    QuotientAgain(Abs(units), k);
    TruncatedTwice(units, Pow10(k));
  }

  lemma TruncatedTwice(units: int, p: nat)
    requires p > 0
    ensures Truncated(Truncated(units, p), 10) ==
              if units < 0 then -(Abs(units) / p / 10) else Abs(units) / p / 10
  {
    var q := Abs(units) / p;
    DivShrinks(Abs(units), p);
    assert Truncated(units, p) == if units < 0 then -q else q;
  }

  lemma QuotientAgain(n: nat, k: nat)
    ensures n / Pow10(k) / 10 == n / Pow10(k + 1)
  {
    DivDiv(n, Pow10(k), 10);
    assert Pow10(k) * 10 == Pow10(k + 1);
  }

  /** The largest multiple of the step that the value reaches. */
  function NormalizeToStep(value: Decimal64, step: Decimal64): Option<Decimal64> {
    if !value.IsPositive() || !step.IsPositive() then None else
    var scaled :- Rescale(value, step.scale);
    FlooredFits(scaled.units, step.units);
    Some(Decimal64(Truncated(scaled.units, step.units) * step.units, step.scale))
  }

  lemma FlooredFits(n: i64, step: i64)
    requires step > 0
    ensures FitsI64(Truncated(n, step) * step)
    ensures Abs(Truncated(n, step) * step) <= Abs(n)
  {
    FloorProduct(Abs(n), step);
    if n < 0 {
      NegatedProduct(Abs(n) / step, step);
    }
  }

  lemma NegatedProduct(a: int, b: int)
    ensures (-a) * b == -(a * b)
  {
  }

  // ---------------------------------------------------------------------------
  // Normalization never increases exposure
  // ---------------------------------------------------------------------------

  /** Rescaling a non-negative decimal loses less than one unit of the coarser scale and never gains. */
  lemma RescaleNeverGains(value: Decimal64, targetScale: byte)
    requires value.units >= 0 && Rescale(value, targetScale).Some?
    ensures var r := Rescale(value, targetScale).value;
            && r.units >= 0 && r.scale == targetScale <= MAX_SCALE && value.scale <= MAX_SCALE
            && Worth(r) <= Worth(value) < Worth(r) + Pow10(MAX_SCALE - targetScale)
            && (value.scale <= targetScale ==> Worth(r) == Worth(value))
  {
    if value.scale <= targetScale {
      RescaleFiner(value, targetScale);
    } else {
      RescaleCoarser(value, targetScale);
    }
  }

  lemma RescaleFiner(value: Decimal64, targetScale: byte)
    requires value.units >= 0 && value.scale <= targetScale <= MAX_SCALE
    ensures var grown := value.units * Pow10(targetScale - value.scale);
            && grown >= 0
            && grown * Pow10(MAX_SCALE - targetScale) == Worth(value)
  {
    hide Pow10;
    Pow10Sum(targetScale - value.scale, MAX_SCALE - targetScale);
    Regroup(value.units, Pow10(targetScale - value.scale), Pow10(MAX_SCALE - targetScale));
    MulMono(0, value.units, Pow10(targetScale - value.scale));
  }

  lemma RescaleCoarser(value: Decimal64, targetScale: byte)
    requires value.units >= 0 && targetScale < value.scale <= MAX_SCALE
    ensures var cut := value.units / Pow10(value.scale - targetScale);
            && cut >= 0
            && cut * Pow10(MAX_SCALE - targetScale) <= Worth(value)
               < cut * Pow10(MAX_SCALE - targetScale) + Pow10(MAX_SCALE - targetScale)
  {
    hide Pow10;
    Pow10Sum(value.scale - targetScale, MAX_SCALE - value.scale);
    FloorTimes(value.units, Pow10(value.scale - targetScale), Pow10(MAX_SCALE - value.scale));
  }

  lemma Regroup(a: int, b: int, c: int)
    ensures a * b * c == a * (b * c)
  {
  }

  lemma FloorTimes(n: nat, p: nat, fine: nat)
    requires p > 0 && fine > 0
    ensures n / p * (p * fine) <= n * fine < n / p * (p * fine) + p * fine
  {
    var q, r := n / p, n % p;
    assert n == q * p + r;
    assert n * fine == q * (p * fine) + r * fine;
    MulMono(0, r, fine);
    MulStep(r, p, fine);
  }

  /**
   The normalized quantity is a multiple of the step, never more than the value, and less than one
   step below it.
   */
  lemma StepBelowValue(value: Decimal64, step: Decimal64)
    requires NormalizeToStep(value, step).Some?
    ensures var r := NormalizeToStep(value, step).value;
            && r.scale == step.scale <= MAX_SCALE && value.scale <= MAX_SCALE
            && r.units >= 0 && r.units % step.units == 0
            && Worth(r) <= Worth(value) < Worth(r) + Worth(step)
  {
    hide Pow10, Rescale;
    RescaleNeverGains(value, step.scale);
    FloorToStep(Rescale(value, step.scale).value.units, step.units, Pow10(MAX_SCALE - step.scale));
  }

  lemma FloorToStep(n: nat, step: nat, unit: nat)
    requires step > 0 && unit > 0
    ensures var floored := n / step * step;
            && floored >= 0 && floored % step == 0
            && floored * unit <= n * unit
            && n * unit + unit <= floored * unit + step * unit
  {
    var q := n / step;
    FloorProduct(n, step);
    DivModUnique(q * step, step, q, 0);
    MulMono(q * step, n, unit);
    MulMono(n + 1, q * step + step, unit);
    Distribute(n, 1, unit);
    Distribute(q * step, step, unit);
  }

  lemma Distribute(a: int, b: int, c: int)
    ensures (a + b) * c == a * c + b * c
  {
  }

  lemma MultipleOfStep(n: nat, step: nat)
    requires step > 0 && n % step == 0 && n > 0
    ensures n >= step
  {
  }

  /** Something is left after normalization exactly when the value is at least one step. */
  lemma SomethingLeftIff(value: Decimal64, step: Decimal64)
    requires NormalizeToStep(value, step).Some?
    ensures step.scale <= MAX_SCALE && value.scale <= MAX_SCALE
    ensures NormalizeToStep(value, step).value.IsPositive() <==> Worth(value) >= Worth(step)
  {
    StepBelowValue(value, step);
    var r := NormalizeToStep(value, step).value;
    hide Pow10, Rescale, NormalizeToStep;
    if r.IsPositive() {
      MultipleOfStep(r.units, step.units);
      MulMono(step.units, r.units, Pow10(MAX_SCALE - step.scale));
    }
  }

  /** Normalizing again changes nothing exactly when the value was at least one step. */
  lemma NormalizingAgainIsIdentity(value: Decimal64, step: Decimal64)
    requires NormalizeToStep(value, step).Some?
    ensures step.scale <= MAX_SCALE && value.scale <= MAX_SCALE
    ensures var r := NormalizeToStep(value, step).value;
            NormalizeToStep(r, step) == Some(r) <==> Worth(value) >= Worth(step)
  {
    SomethingLeftIff(value, step);
    StepBelowValue(value, step);
    var r := NormalizeToStep(value, step).value;
    if r.IsPositive() {
      assert Pow10(0) == 1;
      assert Rescale(r, step.scale) == Some(r);
      FlooredAgain(r.units, step.units);
    }
  }

  /** A tenth normalized to whole units becomes nothing, which is then refused. */
  lemma BelowOneStepIsRefusedAgain()
    ensures NormalizeToStep(Decimal64(1, 1), Decimal64(1, 0)) == Some(Decimal64(0, 0))
    ensures NormalizeToStep(Decimal64(0, 0), Decimal64(1, 0)) == None
  {
    assert Pow10(1) == 10;
  }

  lemma FlooredAgain(n: nat, step: nat)
    requires step > 0 && n % step == 0
    ensures n / step * step == n
  {
  }

  // ---------------------------------------------------------------------------
  // Orders
  // ---------------------------------------------------------------------------

  datatype InstrumentSpec = InstrumentSpec(
    tickSize: Decimal64,
    minimumQuantity: Decimal64,
    maximumQuantity: Decimal64,
    quantityStep: Decimal64,
    complete: bool)

  function DefaultInstrument(request: OrderRequest): InstrumentSpec {
    var scale := request.quantity.scale;
    InstrumentSpec(Decimal64(1, 8), Decimal64(1, scale), Decimal64(MAX_I64, scale), Decimal64(1, scale), true)
  }

  function SpecFor(request: OrderRequest, specs: map<string, InstrumentSpec>): InstrumentSpec {
    if request.canonicalSymbol in specs then specs[request.canonicalSymbol] else DefaultInstrument(request)
  }

  predicate HasPriceEvidence(request: OrderRequest) {
    match request.orderType
    case Market => request.referencePrice.Some?
    case Limit => request.limitPrice.Some?
    case Stop => request.stopPrice.Some?
    case UnknownType => false
  }

  function NormalizePrice(price: Option<Decimal64>, tickSize: Decimal64): Option<Decimal64> {
    var p :- price;
    NormalizeToStep(p, tickSize)
  }

  function NormalizeQuantity(quantity: Decimal64, spec: InstrumentSpec): Option<Decimal64> {
    var normalized :- NormalizeToStep(quantity, spec.quantityStep);
    if !normalized.IsPositive() then None else
    var minimum :- Rescale(spec.minimumQuantity, normalized.scale);
    var maximum :- Rescale(spec.maximumQuantity, normalized.scale);
    if normalized.units < minimum.units || normalized.units > maximum.units then None
    else Some(normalized)
  }

  function NormalizeOrder(request: OrderRequest, specs: map<string, InstrumentSpec>): Option<NormalizedOrder> {
    if request.localOrderId == 0 || request.canonicalSymbol == ""
       || !request.quantity.IsPositive() || request.idempotencyKey.IsEmpty() then None
    else if !HasPriceEvidence(request) then None
    else
      var spec := SpecFor(request, specs);
      if !spec.complete || !spec.quantityStep.IsPositive() then None else
      var quantity :- NormalizeQuantity(request.quantity, spec);
      var limit := NormalizePrice(request.limitPrice, spec.tickSize);
      var stop := NormalizePrice(request.stopPrice, spec.tickSize);
      var reference := NormalizePrice(request.referencePrice, spec.tickSize);
      if (request.limitPrice.Some? && limit.None?) || (request.stopPrice.Some? && stop.None?)
         || (request.referencePrice.Some? && reference.None?) then None
      else Some(NormalizedOrder(request, quantity, limit, stop, reference))
  }

  /** The minimum as the gateway compares it: cut off at the scale of the step. */
  function CutMinimum(spec: InstrumentSpec): Option<Decimal64> {
    Rescale(spec.minimumQuantity, spec.quantityStep.scale)
  }

  /** The minimum is finer than the step's scale, and what is left of it is a multiple of the step. */
  predicate MinimumIsCut(spec: InstrumentSpec) {
    && spec.quantityStep.IsPositive() && CutMinimum(spec).Some?
    && spec.minimumQuantity.scale <= MAX_SCALE && spec.quantityStep.scale <= MAX_SCALE
    && CutMinimum(spec).value.scale <= MAX_SCALE
    && Worth(CutMinimum(spec).value) < Worth(spec.minimumQuantity)
    && CutMinimum(spec).value.units % spec.quantityStep.units == 0
  }

  /** The requested quantity lies less than one step above what is left of the minimum. */
  predicate Undercuts(quantity: Decimal64, spec: InstrumentSpec) {
    && MinimumIsCut(spec) && quantity.scale <= MAX_SCALE
    && Worth(CutMinimum(spec).value) <= Worth(quantity) < Worth(CutMinimum(spec).value) + Worth(spec.quantityStep)
  }

  lemma RescaledShape(value: Decimal64, targetScale: byte)
    requires Rescale(value, targetScale).Some?
    ensures var r := Rescale(value, targetScale).value;
            && r.scale == targetScale <= MAX_SCALE && value.scale <= MAX_SCALE
            && (value.units <= 0 ==> r.units <= 0 && Worth(value) <= Worth(r) && Worth(value) <= 0)
  {
    if value.units <= 0 {
      MulMono(value.units, 0, Pow10(MAX_SCALE - value.scale));
      if value.scale <= targetScale {
        NegativeFiner(value, targetScale);
      } else {
        NegativeCoarser(value, targetScale);
      }
    }
  }

  lemma NegativeFiner(value: Decimal64, targetScale: byte)
    requires value.units <= 0 && value.scale <= targetScale <= MAX_SCALE
    ensures var grown := value.units * Pow10(targetScale - value.scale);
            grown <= 0 && grown * Pow10(MAX_SCALE - targetScale) == Worth(value)
  {
    hide Pow10;
    Pow10Sum(targetScale - value.scale, MAX_SCALE - targetScale);
    Regroup(value.units, Pow10(targetScale - value.scale), Pow10(MAX_SCALE - targetScale));
    MulMono(value.units, 0, Pow10(targetScale - value.scale));
  }

  lemma NegativeCoarser(value: Decimal64, targetScale: byte)
    requires value.units <= 0 && targetScale < value.scale <= MAX_SCALE
    ensures var cut := Truncated(value.units, Pow10(value.scale - targetScale));
            cut <= 0 && Worth(value) <= cut * Pow10(MAX_SCALE - targetScale)
  {
    Pow10Sum(value.scale - targetScale, MAX_SCALE - value.scale);
    hide Pow10;
    NegatedFloor(0 - value.units, Pow10(value.scale - targetScale), Pow10(MAX_SCALE - value.scale),
                 Pow10(MAX_SCALE - targetScale));
  }

  lemma NegatedFloor(n: nat, p: nat, fine: nat, coarse: nat)
    requires p > 0 && fine > 0 && coarse == p * fine
    ensures Truncated(0 - n, p) <= 0 && (0 - n) * fine <= Truncated(0 - n, p) * coarse
  {
    var q: nat := n / p;
    FloorTimes(n, p, fine);
    NegatedProduct(n, fine);
    NegatedProduct(q, coarse);
    assert Truncated(0 - n, p) == 0 - q;
  }

  /**
   An accepted quantity is a positive multiple of the step, at most the requested quantity and at
   most the maximum. It misses the minimum exactly when the request lies less than one step above
   a minimum that the scale of the step cuts off.
   */
  lemma AcceptedQuantityWithinBounds(quantity: Decimal64, spec: InstrumentSpec)
    requires NormalizeQuantity(quantity, spec).Some?
    ensures var r := NormalizeQuantity(quantity, spec).value;
            && r.scale == spec.quantityStep.scale <= MAX_SCALE && quantity.scale <= MAX_SCALE
            && spec.maximumQuantity.scale <= MAX_SCALE && spec.minimumQuantity.scale <= MAX_SCALE
            && r.IsPositive() && spec.quantityStep.units > 0 && r.units % spec.quantityStep.units == 0
            && Worth(r) <= Worth(quantity)
            && Worth(r) <= Worth(spec.maximumQuantity)
            && (Worth(r) < Worth(spec.minimumQuantity) <==> Undercuts(quantity, spec))
  {
    hide Rescale;
    StepBelowValue(quantity, spec.quantityStep);
    var r := NormalizeQuantity(quantity, spec).value;
    var maximum := Rescale(spec.maximumQuantity, r.scale).value;
    RescaledShape(spec.minimumQuantity, r.scale);
    RescaledSign(spec.maximumQuantity, r.scale);
    RescaleNeverGains(spec.maximumQuantity, r.scale);
    MulMono(r.units, maximum.units, Pow10(MAX_SCALE - r.scale));
    hide NormalizeToStep, Pow10;
    MissesMinimumIff(quantity, spec, r);
  }

  lemma MissesMinimumIff(quantity: Decimal64, spec: InstrumentSpec, r: Decimal64)
    requires spec.quantityStep.IsPositive() && CutMinimum(spec).Some?
    requires r.scale == spec.quantityStep.scale <= MAX_SCALE && quantity.scale <= MAX_SCALE
    requires spec.minimumQuantity.scale <= MAX_SCALE
    requires r.units > 0 && r.units % spec.quantityStep.units == 0 && CutMinimum(spec).value.units <= r.units
    requires Worth(r) <= Worth(quantity) < Worth(r) + Worth(spec.quantityStep)
    ensures Worth(r) < Worth(spec.minimumQuantity) <==> Undercuts(quantity, spec)
  {
    var minimum, cut, unit := spec.minimumQuantity, CutMinimum(spec).value, Pow10(MAX_SCALE - r.scale);
    RescaledShape(minimum, r.scale);
    hide Rescale, Pow10;
    MulMono(cut.units, r.units, unit);
    MulMono(0, r.units, unit);
    if minimum.units > 0 {
      RescaleNeverGains(minimum, r.scale);
      if Undercuts(quantity, spec) {
        SameMultiple(r.units, cut.units, spec.quantityStep.units, unit, Worth(quantity));
      }
      if cut.units < r.units {
        MulMono(cut.units + 1, r.units, unit);
        Distribute(cut.units, 1, unit);
      }
    }
  }

  /** Only one multiple of the step lies less than a step below a value. */
  lemma SameMultiple(a: nat, b: nat, step: nat, unit: nat, worth: int)
    requires step > 0 && unit > 0 && a % step == 0 && b % step == 0
    requires a * unit <= worth < a * unit + step * unit
    requires b * unit <= worth < b * unit + step * unit
    ensures a == b
  {
    Distribute(a, step, unit);
    Distribute(b, step, unit);
    if a + step <= b {
      MulMono(a + step, b, unit);
    } else if b + step <= a {
      MulMono(b + step, a, unit);
    } else if a < b {
      NextMultiple(a, b, step);
    } else if b < a {
      NextMultiple(b, a, step);
    }
  }

  lemma NextMultiple(a: nat, b: nat, step: nat)
    requires step > 0 && a % step == 0 && b % step == 0 && a < b
    ensures a + step <= b
  {
    var p, q := a / step, b / step;
    assert a == p * step && b == q * step;
    if q <= p {
      MulMono(q, p, step);
    } else {
      MulStep(p, q, step);
    }
  }

  /** Some quantity below the minimum is accepted, for instance what is left of the minimum itself. */
  predicate MinimumCanBeMissed(spec: InstrumentSpec) {
    && MinimumIsCut(spec) && CutMinimum(spec).value.IsPositive()
    && Rescale(spec.maximumQuantity, spec.quantityStep.scale).Some?
    && CutMinimum(spec).value.units <= Rescale(spec.maximumQuantity, spec.quantityStep.scale).value.units
  }

  predicate AcceptedBelowMinimum(quantity: Decimal64, spec: InstrumentSpec) {
    && NormalizeQuantity(quantity, spec).Some?
    && NormalizeQuantity(quantity, spec).value.scale <= MAX_SCALE && spec.minimumQuantity.scale <= MAX_SCALE
    && Worth(NormalizeQuantity(quantity, spec).value) < Worth(spec.minimumQuantity)
  }

  /** An instrument never lets a quantity below its minimum through exactly when this cannot happen. */
  lemma MinimumIsKeptIff(spec: InstrumentSpec)
    ensures (exists quantity :: AcceptedBelowMinimum(quantity, spec)) <==> MinimumCanBeMissed(spec)
  {
    if quantity :| AcceptedBelowMinimum(quantity, spec) {
      AcceptedBelowNeedsCut(quantity, spec);
    }
    if MinimumCanBeMissed(spec) {
      CutMinimumIsAccepted(spec);
    }
  }

  lemma AcceptedBelowNeedsCut(quantity: Decimal64, spec: InstrumentSpec)
    requires AcceptedBelowMinimum(quantity, spec)
    ensures MinimumCanBeMissed(spec)
  {
    AcceptedQuantityWithinBounds(quantity, spec);
    StepBelowValue(quantity, spec.quantityStep);
    var r, cut := NormalizeQuantity(quantity, spec).value, CutMinimum(spec).value;
    RescaledShape(spec.minimumQuantity, r.scale);
    hide Rescale, Pow10, NormalizeToStep;
    MulMono(0, r.units, Pow10(MAX_SCALE - r.scale));
    assert spec.minimumQuantity.units > 0;
    RescaleNeverGains(spec.minimumQuantity, r.scale);
    SameMultiple(r.units, cut.units, spec.quantityStep.units, Pow10(MAX_SCALE - r.scale), Worth(quantity));
  }

  lemma CutMinimumIsAccepted(spec: InstrumentSpec)
    requires MinimumCanBeMissed(spec)
    ensures AcceptedBelowMinimum(CutMinimum(spec).value, spec)
  {
    var cut := CutMinimum(spec).value;
    RescaledShape(spec.minimumQuantity, spec.quantityStep.scale);
    assert Pow10(0) == 1;
    assert Rescale(cut, cut.scale) == Some(cut);
    FlooredAgain(cut.units, spec.quantityStep.units);
    hide Rescale, Pow10;
  }

  /**
   What an accepted order asks for: its own request, a quantity within the bounds of its instrument,
   and every price it had, cut to the tick and never raised.
   */
  lemma AcceptedOrderWithinBounds(request: OrderRequest, specs: map<string, InstrumentSpec>)
    requires NormalizeOrder(request, specs).Some?
    ensures var n, spec := NormalizeOrder(request, specs).value, SpecFor(request, specs);
            && n.request == request
            && n.normalizedQuantity.IsPositive() && n.normalizedQuantity.scale <= MAX_SCALE
            && request.quantity.scale <= MAX_SCALE && spec.maximumQuantity.scale <= MAX_SCALE
            && spec.minimumQuantity.scale <= MAX_SCALE
            && Worth(n.normalizedQuantity) <= Worth(request.quantity)
            && Worth(n.normalizedQuantity) <= Worth(spec.maximumQuantity)
            && (Worth(n.normalizedQuantity) < Worth(spec.minimumQuantity) <==> Undercuts(request.quantity, spec))
            && PriceIsCut(request.limitPrice, n.normalizedLimitPrice, spec.tickSize)
            && PriceIsCut(request.stopPrice, n.normalizedStopPrice, spec.tickSize)
            && PriceIsCut(request.referencePrice, n.normalizedReferencePrice, spec.tickSize)
  {
    var spec := SpecFor(request, specs);
    AcceptedQuantityWithinBounds(request.quantity, spec);
    PriceCut(request.limitPrice, spec.tickSize);
    PriceCut(request.stopPrice, spec.tickSize);
    PriceCut(request.referencePrice, spec.tickSize);
    hide Worth, Undercuts, NormalizePrice, NormalizeQuantity, PriceIsCut;
  }

  /** There is a normalized price exactly when one was given, and it is that one cut down to a multiple of the tick. */
  predicate PriceIsCut(price: Option<Decimal64>, cut: Option<Decimal64>, tick: Decimal64) {
    && (price.Some? <==> cut.Some?)
    && (price.Some? ==>
          && cut.value.scale == tick.scale <= MAX_SCALE && price.value.scale <= MAX_SCALE
          && tick.units > 0 && cut.value.units % tick.units == 0
          && Worth(cut.value) <= Worth(price.value) < Worth(cut.value) + Worth(tick))
  }

  lemma PriceCut(price: Option<Decimal64>, tick: Decimal64)
    ensures (price.Some? ==> NormalizePrice(price, tick).Some?) ==> PriceIsCut(price, NormalizePrice(price, tick), tick)
  {
    if price.Some? && NormalizePrice(price, tick).Some? {
      StepBelowValue(price.value, tick);
    }
  }

  lemma RescaledSign(value: Decimal64, targetScale: byte)
    requires Rescale(value, targetScale).Some? && Rescale(value, targetScale).value.units > 0
    ensures value.units > 0
  {
    hide Pow10;
    if value.scale <= targetScale && value.units <= 0 {
      MulMono(value.units, 0, Pow10(targetScale - value.scale));
    }
  }

  /** A minimum finer than the step's scale lets a quantity below it through. */
  lemma MinimumFinerThanStep()
    ensures var spec := InstrumentSpec(Decimal64(1, 8), Decimal64(15, 2), Decimal64(100, 1), Decimal64(1, 1), true);
            && NormalizeQuantity(Decimal64(1, 1), spec) == Some(Decimal64(1, 1))
            && Worth(Decimal64(1, 1)) < Worth(spec.minimumQuantity)
  {
    assert Pow10(0) == 1 && Pow10(1) == 10;
    assert Rescale(Decimal64(15, 2), 1) == Some(Decimal64(1, 1));
    Pow10Sum(10, 1);
  }
}
