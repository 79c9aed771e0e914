/** Exactly which order requests are normalized, and to what. */
module OrderAcceptance {
  import opened Wrappers
  import opened MachineWords
  import opened BrokerContracts
  import opened StepNormalization

  /** The decimal can be expressed at the scale: both scales are supported and nothing overflows. */
  predicate IsExpressible(d: Decimal64, scale: byte) {
    && d.scale <= 12 && scale <= 12
    && (d.scale <= scale ==> -0x8000_0000_0000_0000 <= d.units * Pow10(scale - d.scale) <= 0x7fff_ffff_ffff_ffff)
  }

  lemma RescalesIff(d: Decimal64, scale: byte)
    ensures Rescale(d, scale).Some? <==> IsExpressible(d, scale)
  {
    hide Pow10, Truncated;
  }

  /** The value can be cut to the step. */
  predicate CanBeCut(value: Decimal64, step: Decimal64) {
    value.units > 0 && step.units > 0 && IsExpressible(value, step.scale)
  }

  /** Cutting gives the multiple of the step that is at most the value and less than one step below it. */
  ghost predicate IsCut(value: Decimal64, step: Decimal64, r: Decimal64) {
    && CanBeCut(value, step) && r.scale == step.scale && r.units % step.units == 0
    && Worth(r) <= Worth(value) < Worth(r) + Worth(step)
  }

  lemma OneMultiple(a: int, b: int, step: nat, unit: nat, worth: int)
    requires step > 0 && unit > 0 && a % step == 0 && b % step == 0
    requires a * unit <= worth < a * unit + step * unit && b * unit <= worth < b * unit + step * unit
    ensures a == b
  {
    if a < b {
      NextStep(a, b, step, unit);
    } else if b < a {
      NextStep(b, a, step, unit);
    }
  }

  lemma NextStep(a: int, b: int, step: nat, unit: nat)
    requires step > 0 && unit > 0 && a % step == 0 && b % step == 0 && a < b
    ensures a * unit + step * unit <= b * unit
  {
    assert a + step <= b by {
      var m, n := a / step, b / step;
      assert a == m * step && b == n * step;
      if n <= m {
        MulMono(n, m, step);
      }
      MulStep(m, n, step);
    }
    MulMono(a + step, b, unit);
    Distribute(a, step, unit);
  }

  /** A value is normalized to a step if and only if it can be cut to it, and then to what cutting gives. */
  lemma NormalizedIff(value: Decimal64, step: Decimal64, r: Decimal64)
    ensures NormalizeToStep(value, step) == Some(r) <==> IsCut(value, step, r)
  {
    RescalesIff(value, step.scale);
    if CanBeCut(value, step) {
      StepBelowValue(value, step);
      var s := NormalizeToStep(value, step).value;
      hide NormalizeToStep, Rescale, Pow10, IsExpressible;
      if IsCut(value, step, r) {
        OneMultiple(r.units, s.units, step.units, Pow10(MAX_SCALE - step.scale), Worth(value));
      }
    }
  }

  /** A price is cut to the tick when it is given. */
  ghost predicate IsCutPrice(price: Option<Decimal64>, tick: Decimal64, cut: Option<Decimal64>) {
    match price
    case None => cut == None
    case Some(p) => cut.Some? && IsCut(p, tick, cut.value)
  }

  /** The instrument on file for the symbol, or one that takes any quantity at the scale of the request. */
  predicate IsInstrument(request: OrderRequest, specs: map<string, InstrumentSpec>, spec: InstrumentSpec) {
    if request.canonicalSymbol in specs then spec == specs[request.canonicalSymbol]
    else
      && spec.tickSize == Decimal64(1, 8) && spec.complete
      && spec.minimumQuantity == spec.quantityStep == Decimal64(1, request.quantity.scale)
      && spec.maximumQuantity == Decimal64(0x7fff_ffff_ffff_ffff, request.quantity.scale)
  }

  /** The quantity is a positive number of steps, between minimum and maximum cut to the same scale. */
  ghost predicate IsAcceptedQuantity(quantity: Decimal64, spec: InstrumentSpec, r: Decimal64) {
    && IsCut(quantity, spec.quantityStep, r) && r.units > 0
    && IsExpressible(spec.minimumQuantity, r.scale) && IsExpressible(spec.maximumQuantity, r.scale)
    && Rescale(spec.minimumQuantity, r.scale).value.units <= r.units
    && r.units <= Rescale(spec.maximumQuantity, r.scale).value.units
  }

  /**
   A request is accepted if and only if it is identified, asks for something, carries the price its
   type needs, its instrument is complete, its quantity is accepted and its prices can be cut; the
   order then is that request with that quantity and those prices.
   */
  lemma OrderAcceptedIff(request: OrderRequest, specs: map<string, InstrumentSpec>, order: NormalizedOrder)
    ensures NormalizeOrder(request, specs) == Some(order) <==>
              && order.request == request
              && request.localOrderId != 0 && request.canonicalSymbol != "" && request.quantity.units > 0
              && request.idempotencyKey != Named("")
              && (match request.orderType
                  case Market => request.referencePrice.Some?
                  case Limit => request.limitPrice.Some?
                  case Stop => request.stopPrice.Some?
                  case UnknownType => false)
              && exists spec ::
                   && IsInstrument(request, specs, spec) && spec.complete
                   && IsAcceptedQuantity(request.quantity, spec, order.normalizedQuantity)
                   && IsCutPrice(request.limitPrice, spec.tickSize, order.normalizedLimitPrice)
                   && IsCutPrice(request.stopPrice, spec.tickSize, order.normalizedStopPrice)
                   && IsCutPrice(request.referencePrice, spec.tickSize, order.normalizedReferencePrice)
  {
    var spec := SpecFor(request, specs);
    assert IsInstrument(request, specs, spec) && forall s :: IsInstrument(request, specs, s) ==> s == spec;
    hide IsInstrument;
    QuantityAcceptedIff(request.quantity, spec, order.normalizedQuantity);
    PriceCutIff(request.limitPrice, spec.tickSize, order.normalizedLimitPrice);
    PriceCutIff(request.stopPrice, spec.tickSize, order.normalizedStopPrice);
    PriceCutIff(request.referencePrice, spec.tickSize, order.normalizedReferencePrice);
    hide NormalizeQuantity, NormalizePrice, IsAcceptedQuantity, IsCutPrice, SpecFor;
  }

  lemma QuantityAcceptedIff(quantity: Decimal64, spec: InstrumentSpec, r: Decimal64)
    ensures NormalizeQuantity(quantity, spec) == Some(r) && spec.quantityStep.units > 0
       <==> IsAcceptedQuantity(quantity, spec, r)
  {
    NormalizedIff(quantity, spec.quantityStep, r);
    RescalesIff(spec.minimumQuantity, r.scale);
    RescalesIff(spec.maximumQuantity, r.scale);
    hide NormalizeToStep, Rescale, IsExpressible, Pow10;
  }

  lemma PriceCutIff(price: Option<Decimal64>, tick: Decimal64, cut: Option<Decimal64>)
    ensures NormalizePrice(price, tick) == cut && (price.Some? ==> cut.Some?) <==> IsCutPrice(price, tick, cut)
  {
    if price.Some? && cut.Some? {
      NormalizedIff(price.value, tick, cut.value);
    }
    hide NormalizeToStep, IsCut;
  }
}
