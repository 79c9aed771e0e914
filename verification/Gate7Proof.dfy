/** The quote proof as an object, with the loops of its arithmetic and of its searches. */
module Gate7Proofs {
  import opened Wrappers
  import opened MachineWords
  import opened BrokerContracts
  import opened StepNormalization
  import opened SpotArithmetic
  import opened QuoteProof

  // ---------------------------------------------------------------------------
  // Arithmetic
  // ---------------------------------------------------------------------------

  lemma SmallPowers()
    ensures Pow10(0) == 1 && Pow10(1) == 10 && Pow10(2) == 100 && Pow10(3) == 1000 && Pow10(4) == 10000 &&
        Pow10(5) == 100000
    ensures Pow10(6) == 1000000 && Pow10(7) == 10000000
  {
  }

  /** The guards before the multiplication: each limit divided by the factor, truncated toward zero. */
  predicate ProductOverflows(units: i64, factor: nat)
    requires factor > 0
  {
    (units > 0 && units > MAX_I64 / factor) || (units < 0 && units < 0 - TWO63 / factor)
  }

  lemma GuardsAreExact(units: i64, factor: nat)
    requires factor > 0
    ensures ProductOverflows(units, factor) <==> !FitsI64(units * factor)
  {
    if units >= 0 {
      GuardIsExact(units, MAX_I64, factor);
      MulMono(0, units, factor);
    } else {
      var n: nat := 0 - units;
      GuardIsExact(n, TWO63, factor);
      MulMono(0, n, factor);
      assert (0 - n) * factor == 0 - n * factor;
    }
  }

  lemma GuardIsExact(units: nat, limit: nat, factor: nat)
    requires factor > 0
    ensures units > limit / factor <==> units * factor > limit
  {
    var q := limit / factor;
    FloorProduct(limit, factor);
    if units > q {
      MulStep(q, units, factor);
    } else {
      MulMono(units, q, factor);
    }
  }

  /** The factor never exceeds 10^7 nor the quotient 2^62, so the source's guards on those two cannot fire. */
  method NormalizeScale5(units: i64, digits: int) returns (out: Option<i64>)
    ensures out == NormalizeSignedScale5(units, digits)
  {
    SmallPowers();
    hide Pow10, HalfUp, ProductOverflows;
    if digits < 0 || digits > MAX_SCALE {
      return None;
    }
    if digits == 5 {
      assert units * 1 == units;
      return Some(units);
    }
    var factor: i64 := 1;
    if digits > 5 {
      var i := 5;
      while i < digits
        invariant 5 <= i <= digits && factor == Pow10(i - 5)
      {
        Pow10OneMore(i - 5);
        PowersStaySmall(i + 1 - 5);
        factor := factor * 10;
        i := i + 1;
      }
      GuardsAreExact(units, factor);
      if ProductOverflows(units, factor) {
        return None;
      }
      return Some(units * factor);
    }
    var i := digits;
    while i < 5
      invariant digits <= i <= 5 && factor == Pow10(i - digits)
    {
      Pow10OneMore(i - digits);
      PowersStaySmall(i + 1 - digits);
      factor := factor * 10;
      i := i + 1;
    }
    var magnitude: u64 := if units < 0 then -(units + 1) + 1 else units;
    out := RoundedQuotient(units, magnitude, factor, 5 - digits);
  }

  lemma Pow10OneMore(n: nat)
    ensures Pow10(n + 1) == 10 * Pow10(n)
  {
  }

  lemma PowersStaySmall(n: nat)
    requires n <= 7
    ensures Pow10(n) <= 10000000
  {
    SmallPowers();
  }

  method RoundedQuotient(units: i64, magnitude: u64, factor: i64, ghost shift: nat) returns (out: Option<i64>)
    requires magnitude == Abs(units) && shift > 0 && factor == Pow10(shift)
    ensures out == Some(RoundHalfAway(units, Pow10(shift)))
  {
    RoundedFits(units, shift);
    HalfUpFits(magnitude, factor);
    var quotient := magnitude / factor;
    var remainder := magnitude % factor;
    if remainder * 2 >= factor {
      quotient := quotient + 1;
    }
    assert quotient == HalfUp(magnitude, factor);
    out := Some(if units < 0 then 0 - quotient else quotient);
  }

  /** Reads the raw timestamp in every unit and keeps the only fresh reading, or the nearest one. */
  method ClassifyTimestampDetailed(raw: u64, receipt: u64) returns (v: Verdict)
    ensures v == Classify(raw, receipt)
  {
    hide Classify;
    v := Decide(raw, receipt);
    VerdictIsUnique(raw, receipt, v, Classify(raw, receipt));
  }

  ghost predicate OnlyBefore(raw: u64, receipt: u64, n: nat, result: Option<TimestampProof>)
    requires n <= 4
  {
    if result == None then forall j :: 0 <= j < n ==> !Qualifies(raw, receipt, j)
    else exists i :: 0 <= i < n && Qualifies(raw, receipt, i) && result == Some(ProofOf(raw, receipt, i))
                  && forall j :: 0 <= j < n && j != i ==> !Qualifies(raw, receipt, j)
  }

  ghost predicate ClosestBefore(raw: u64, receipt: u64, n: nat, closest: Option<u64>, timestamp: u64, tied: bool)
    requires n <= 4
  {
    if closest == None then forall j :: 0 <= j < n ==> !Readable(raw, j)
    else
      && (exists i :: 0 <= i < n && Nearest(raw, receipt, n, i, closest.value, timestamp, tied))
      && (forall j :: 0 <= j < n && Readable(raw, j) ==> closest.value <= Distance(raw, receipt, j))
  }

  /** Unit `i` is at the least distance, and ties with another one exactly when `tied`. */
  ghost predicate Nearest(raw: u64, receipt: u64, n: nat, i: nat, closest: u64, timestamp: u64, tied: bool)
    requires i < n <= 4
  {
    && Readable(raw, i) && Distance(raw, receipt, i) == closest && Reading(raw, i) == timestamp
    && (tied <==> exists j :: 0 <= j < n && j != i && Readable(raw, j) && Distance(raw, receipt, j) == closest)
  }

  method Decide(raw: u64, receipt: u64) returns (v: Verdict)
    ensures IsVerdict(raw, receipt, v)
  {
    if receipt == 0 {
      return UnitUnproven;
    }
    hide OnlyBefore, ClosestBefore, IsVerdict, NoneQualifies, OnlyQualifier;
    Initially(raw, receipt);
    var result: Option<TimestampProof> := None;
    var closestDistance: Option<u64> := None;
    var closestTimestamp: u64, closestTied := 0, false;
    var i := 0;
    while i < 4
      invariant 0 <= i <= 4
      invariant OnlyBefore(raw, receipt, i, result)
      invariant ClosestBefore(raw, receipt, i, closestDistance, closestTimestamp, closestTied)
    {
      GuardIsExact(raw, MAX_U64, MULTIPLIERS[i]);
      if raw > MAX_U64 / MULTIPLIERS[i] {
        Unreadable(raw, receipt, i, result, closestDistance, closestTimestamp, closestTied);
        i := i + 1;
        continue;
      }
      var timestampNs: u64 := raw * MULTIPLIERS[i];
      var distance: u64 := if timestampNs <= receipt then receipt - timestampNs else timestampNs - receipt;
      assert Readable(raw, i) && timestampNs == Reading(raw, i) && distance == Distance(raw, receipt, i);
      closestDistance, closestTimestamp, closestTied :=
        Closer(raw, receipt, i, closestDistance, closestTimestamp, closestTied, timestampNs, distance);
      if (timestampNs <= receipt && distance <= MAX_AGE_NS) || (timestampNs > receipt && distance <= MAX_FUTURE_NS) {
        if result.Some? {
          TwoQualify(raw, receipt, i, result);
          return UnitUnproven;
        }
        var delta: i64 := if timestampNs <= receipt then distance else 0 - distance;
        result := Some(TimestampProof(UNITS[i], timestampNs, receipt, delta));
        FirstFresh(raw, receipt, i);
      } else {
        NotFresh(raw, receipt, i, result);
      }
      i := i + 1;
    }
    if result.Some? {
      v := ReadyVerdict(raw, receipt, result);
      return;
    }
    NoneIsReady(raw, receipt);
    assert Readable(raw, 3);
    v := NearestVerdict(raw, receipt, closestDistance, closestTimestamp, closestTied);
  }

  lemma Initially(raw: u64, receipt: u64)
    ensures OnlyBefore(raw, receipt, 0, None) && ClosestBefore(raw, receipt, 0, None, 0, false)
  {
  }

  lemma NotFresh(raw: u64, receipt: u64, i: nat, result: Option<TimestampProof>)
    requires i < 4 && OnlyBefore(raw, receipt, i, result) && !Qualifies(raw, receipt, i)
    ensures OnlyBefore(raw, receipt, i + 1, result)
  {
    hide Qualifies, ProofOf;
  }

  lemma FirstFresh(raw: u64, receipt: u64, i: nat)
    requires i < 4 && OnlyBefore(raw, receipt, i, None) && Qualifies(raw, receipt, i)
    ensures OnlyBefore(raw, receipt, i + 1, Some(ProofOf(raw, receipt, i)))
  {
    hide Qualifies, ProofOf;
  }

  lemma Unreadable(raw: u64, receipt: u64, i: nat, result: Option<TimestampProof>, closest: Option<u64>,
      timestamp: u64, tied: bool)
    requires i < 4 && !Readable(raw, i)
    requires OnlyBefore(raw, receipt, i, result) && ClosestBefore(raw, receipt, i, closest, timestamp, tied)
    ensures OnlyBefore(raw, receipt, i + 1, result) && ClosestBefore(raw, receipt, i + 1, closest, timestamp, tied)
  {
    assert !Qualifies(raw, receipt, i);
    NotFresh(raw, receipt, i, result);
    hide Readable, Distance, Reading, Qualifies;
    if closest.Some? {
      var k :| 0 <= k < i && Nearest(raw, receipt, i, k, closest.value, timestamp, tied);
      assert Nearest(raw, receipt, i + 1, k, closest.value, timestamp, tied);
    }
  }

  method Closer(raw: u64, receipt: u64, i: nat, closest: Option<u64>, timestamp: u64, tied: bool,
      timestampNs: u64, distance: u64)
    returns (closest': Option<u64>, timestamp': u64, tied': bool)
    requires i < 4 && ClosestBefore(raw, receipt, i, closest, timestamp, tied)
    requires Readable(raw, i) && timestampNs == Reading(raw, i) && distance == Distance(raw, receipt, i)
    ensures ClosestBefore(raw, receipt, i + 1, closest', timestamp', tied')
  {
    hide Reading, Distance, Readable;
    closest', timestamp', tied' := closest, timestamp, tied;
    if closest == None || distance < closest.value {
      closest', timestamp', tied' := Some(distance), timestampNs, false;
      assert Nearest(raw, receipt, i + 1, i, distance, timestampNs, false);
    } else {
      ghost var k :| 0 <= k < i && Nearest(raw, receipt, i, k, closest.value, timestamp, tied);
      if distance == closest.value {
        tied' := true;
        assert i != k && Readable(raw, i) && Distance(raw, receipt, i) == closest.value;
      }
      assert Nearest(raw, receipt, i + 1, k, closest.value, timestamp, tied');
    }
  }

  lemma TwoQualify(raw: u64, receipt: u64, i: nat, result: Option<TimestampProof>)
    requires receipt != 0 && i < 4 && result.Some? && OnlyBefore(raw, receipt, i, result) && Qualifies(raw,
        receipt, i)
    ensures IsVerdict(raw, receipt, UnitUnproven)
  {
    hide Qualifies, StrictlyClosest, ProofOf;
    var k :| 0 <= k < i && Qualifies(raw, receipt, k) && result == Some(ProofOf(raw, receipt, k))
          && forall j :: 0 <= j < i && j != k ==> !Qualifies(raw, receipt, j);
    assert !NoneQualifies(raw, receipt);
    forall m | 0 <= m < 4 ensures !OnlyQualifier(raw, receipt, m) {
      assert m != i || m != k;
    }
  }

  method ReadyVerdict(raw: u64, receipt: u64, result: Option<TimestampProof>) returns (v: Verdict)
    requires receipt != 0 && result.Some? && OnlyBefore(raw, receipt, 4, result)
    ensures IsVerdict(raw, receipt, v)
  {
    hide Qualifies, StrictlyClosest, ProofOf;
    v := Ready(result.value);
    ghost var k :| 0 <= k < 4 && Qualifies(raw, receipt, k) && result == Some(ProofOf(raw, receipt, k))
          && forall j :: 0 <= j < 4 && j != k ==> !Qualifies(raw, receipt, j);
    assert OnlyQualifier(raw, receipt, k) && !NoneQualifies(raw, receipt);
  }

  lemma NoneIsReady(raw: u64, receipt: u64)
    requires OnlyBefore(raw, receipt, 4, None)
    ensures NoneQualifies(raw, receipt) && forall i | 0 <= i < 4 :: !OnlyQualifier(raw, receipt, i)
  {
    hide Qualifies;
  }

  method NearestVerdict(raw: u64, receipt: u64, closest: Option<u64>, timestamp: u64, tied: bool) returns
      (v: Verdict)
    requires receipt != 0 && NoneQualifies(raw, receipt) && Readable(raw, 3)
    requires forall i | 0 <= i < 4 :: !OnlyQualifier(raw, receipt, i)
    requires ClosestBefore(raw, receipt, 4, closest, timestamp, tied)
    ensures IsVerdict(raw, receipt, v)
  {
    ghost var k :| 0 <= k < 4 && Nearest(raw, receipt, 4, k, closest.value, timestamp, tied);
    assert timestamp != receipt by {
      assert !Qualifies(raw, receipt, k);
    }
    NearestDecides(raw, receipt, k, closest.value, timestamp, tied);
    v := if closest == None || tied then UnitUnproven else if timestamp < receipt then Stale else Future;
  }

  lemma NearestDecides(raw: u64, receipt: u64, k: nat, closest: u64, timestamp: u64, tied: bool)
    requires NoneQualifies(raw, receipt) && k < 4 && Nearest(raw, receipt, 4, k, closest, timestamp, tied)
    requires forall j :: 0 <= j < 4 && Readable(raw, j) ==> closest <= Distance(raw, receipt, j)
    ensures NearestIsPast(raw, receipt) <==> !tied && timestamp < receipt
    ensures NearestIsFuture(raw, receipt) <==> !tied && timestamp > receipt
  {
    hide Qualifies, Distance, Reading, Readable, NoneQualifies;
    if tied {
      var j :| 0 <= j < 4 && j != k && Readable(raw, j) && Distance(raw, receipt, j) == closest;
      forall i | 0 <= i < 4 ensures !StrictlyClosest(raw, receipt, i) {
        if i == k {
          assert Distance(raw, receipt, j) == Distance(raw, receipt, k);
        } else {
          assert Readable(raw, k) && closest == Distance(raw, receipt, k);
        }
      }
    } else {
      assert StrictlyClosest(raw, receipt, k);
      forall i | 0 <= i < 4 && StrictlyClosest(raw, receipt, i) ensures i == k {
        OneClosest(raw, receipt, i, k);
      }
    }
  }

  // ---------------------------------------------------------------------------
  // The proof object
  // ---------------------------------------------------------------------------

  lemma {:induction false} NameGrows(name: string, n: nat)
    requires n <= |name|
    ensures Slashes(name[..n]) <= Slashes(name) && |Letters(name[..n])| <= |Letters(name)|
  {
    if n == |name| {
      assert name[..n] == name;
    } else {
      var front := name[..|name| - 1];
      assert front[..n] == name[..n];
      NameGrows(front, n);
    }
  }

  method MatchesXauusd(name: string) returns (ok: bool)
    ensures ok <==> IsCanonicalXauusd(name)
  {
    var normalized := "";
    var slashSeen, i := false, 0;
    while i < |name|
      invariant 0 <= i <= |name|
      invariant forall j :: 0 <= j < i ==> name[j] == '/' || IsLetter(name[j])
      invariant normalized == Letters(name[..i]) && |normalized| <= 6
      invariant Slashes(name[..i]) == if slashSeen then 1 else 0
    {
      assert name[..i + 1][..i] == name[..i];
      NameGrows(name, i + 1);
      var c := name[i];
      if c == '/' {
        if slashSeen {
          return false;
        }
        slashSeen := true;
        assert Letters(name[..i]) + "" == Letters(name[..i]);
      } else if IsLetter(c) {
        if |normalized| >= 6 {
          return false;
        }
        normalized := normalized + [Upper(c)];
      } else {
        return false;
      }
      i := i + 1;
    }
    assert name[..i] == name;
    ok := |normalized| == 6 && normalized == "XAUUSD";
  }

  lemma FiboDemosOfNone()
    ensures FiboDemos([]) == []
  {
  }

  lemma FiboDemosStep(accounts: seq<AccountRecord>, i: nat)
    requires i < |accounts|
    ensures FiboDemos(accounts[..i + 1])
         == FiboDemos(accounts[..i]) + if IsFiboDemo(accounts[i]) then [accounts[i]] else []
  {
    hide IsFiboDemo;
    assert accounts[..i + 1][..i] == accounts[..i];
  }

  method FindFiboDemo(accounts: seq<AccountRecord>) returns (match': u64, matches: nat)
    ensures matches == |FiboDemos(accounts)|
    ensures matches > 0 ==> FiboDemos(accounts)[matches - 1].accountId == Some(match')
  {
    hide IsFiboDemo, FiboDemos;
    FiboDemosOfNone();
    match', matches := 0, 0;
    var i := 0;
    while i < |accounts|
      invariant 0 <= i <= |accounts|
      invariant matches == |FiboDemos(accounts[..i])|
      invariant matches > 0 ==> FiboDemos(accounts[..i])[matches - 1].accountId == Some(match')
    {
      FiboDemosStep(accounts, i);
      var a := accounts[i];
      if IsFiboDemo(a) {
        match' := AccountOf(a);
        matches := matches + 1;
      }
      i := i + 1;
    }
    assert accounts[..i] == accounts;
  }

  method AccountOf(a: AccountRecord) returns (id: u64)
    requires IsFiboDemo(a)
    ensures a.accountId == Some(id)
  {
    id := a.accountId.value;
  }

  method QualifiesAsXauusd(s: LightSymbol, archivedIds: seq<i64>) returns (ok: bool)
    ensures ok <==> IsXauusd(s, archivedIds)
  {
    hide IsCanonicalXauusd;
    if s.symbolId == None || s.symbolId.value <= 0 || s.symbolName == None || s.enabled != Some(true)
       || s.archived || s.symbolId.value in archivedIds {
      return false;
    }
    ok := MatchesXauusd(s.symbolName.value);
  }

  /** Counts the candidates, then looks the first one up again. */
  method FindXauusd(symbols: seq<LightSymbol>, archivedIds: seq<i64>) returns (found: Option<LightSymbol>,
      matches: nat)
    ensures matches == |Xauusds(symbols, archivedIds)|
    ensures matches == 1 ==> found == Some(Xauusds(symbols, archivedIds)[0])
  {
    hide IsXauusd;
    matches := 0;
    var i := 0;
    while i < |symbols|
      invariant 0 <= i <= |symbols|
      invariant matches == |Xauusds(symbols[..i], archivedIds)|
    {
      assert symbols[..i + 1][..i] == symbols[..i];
      var ok := QualifiesAsXauusd(symbols[i], archivedIds);
      if ok {
        matches := matches + 1;
      }
      i := i + 1;
    }
    assert symbols[..i] == symbols;
    found := None;
    if matches == 1 {
      found := FirstXauusd(symbols, archivedIds);
    }
  }

  method FirstXauusd(symbols: seq<LightSymbol>, archivedIds: seq<i64>) returns (found: Option<LightSymbol>)
    requires |Xauusds(symbols, archivedIds)| == 1
    ensures found == Some(Xauusds(symbols, archivedIds)[0])
  {
    hide IsXauusd, Xauusds;
    assert Xauusds(symbols, archivedIds)[0] in Xauusds(symbols, archivedIds);
    var i := 0;
    while i < |symbols|
      invariant 0 <= i <= |symbols|
      invariant forall j :: 0 <= j < i ==> !IsXauusd(symbols[j], archivedIds)
    {
      var ok := QualifiesAsXauusd(symbols[i], archivedIds);
      if ok {
        assert symbols[i] in symbols && symbols[i] in Xauusds(symbols, archivedIds);
        return Some(symbols[i]);
      }
      i := i + 1;
    }
    found := None;
  }

  method FindWithId(symbols: seq<FullSymbol>, id: i64) returns (found: Option<FullSymbol>, matches: nat)
    ensures matches == |WithId(symbols, id)|
    ensures matches == 1 ==> found == Some(WithId(symbols, id)[0])
  {
    found, matches := None, 0;
    var i := 0;
    while i < |symbols|
      invariant 0 <= i <= |symbols|
      invariant matches == |WithId(symbols[..i], id)|
      invariant matches > 0 ==> found == Some(WithId(symbols[..i], id)[matches - 1])
    {
      assert symbols[..i + 1][..i] == symbols[..i];
      if symbols[i].symbolId == Some(id) {
        found, matches := Some(symbols[i]), matches + 1;
      }
      i := i + 1;
    }
    assert symbols[..i] == symbols;
  }

  class CTraderGate7Proof {
    var connectionGeneration_: u64
    var phase_: Phase
    var lastDecision_: Decision
    var accountId_: i64
    var symbolId_: i64
    var symbolName_: string
    var instrument_: Option<Instrument>
    var subscriptionReady_: bool
    var quoteEvidence_: Option<Quote>

    ghost function State(): Proof
      reads this
    {
      Proof(connectionGeneration_, phase_, lastDecision_, accountId_, symbolId_, symbolName_, instrument_,
            subscriptionReady_, quoteEvidence_)
    }

    constructor (generation: u64)
      ensures State() == Start(generation)
    {
      connectionGeneration_ := generation;
      phase_, lastDecision_ := AwaitAccountList, Started;
      accountId_, symbolId_, symbolName_ := 0, 0, "";
      instrument_, subscriptionReady_, quoteEvidence_ := None, false, None;
    }

    method FinishWith(decision: Decision) returns (d: Decision)
      modifies this
      ensures State() == Finish(decision) && d == decision
    {
      accountId_, symbolId_, symbolName_ := 0, 0, "";
      instrument_, subscriptionReady_, quoteEvidence_ := None, false, None;
      connectionGeneration_ := 0;
      phase_, lastDecision_ := Terminal, decision;
      d := decision;
    }

    method CheckTransport(t: Transport) returns (failure: Option<Decision>)
      ensures failure == TransportFailure(State(), t)
    {
      if !t.current || t.generation == 0 || t.generation != connectionGeneration_ {
        return Some(StaleConnectionGeneration);
      }
      failure := if t.matched then None else Some(CorrelationRejected);
    }

    method AcceptAccountList(a: Answer) returns (d: Decision)
      requires a.AccountList?
      modifies this
      ensures (State(), d) == Accept(old(State()), a)
    {
      hide FiboDemos, TransportFailure;
      if phase_ == Complete || phase_ == Terminal {
        return AlreadyTerminal;
      }
      if phase_ != AwaitAccountList {
        d := FinishWith(WrongPhase);
        return;
      }
      var failure := CheckTransport(a.transport);
      if failure.Some? {
        d := FinishWith(failure.value);
        return;
      }
      if !a.tokenOwned {
        d := FinishWith(TokenOwnershipRejected);
        return;
      }
      if !a.tradingScope {
        d := FinishWith(TradingScopeRequired);
        return;
      }
      var account, matches := FindFiboDemo(a.accounts);
      if matches == 0 {
        d := FinishWith(NoFiboDemoAccount);
        return;
      }
      if matches != 1 {
        d := FinishWith(AmbiguousFiboDemoAccount);
        return;
      }
      assert FiboDemos(a.accounts)[0] in FiboDemos(a.accounts);
      accountId_ := account;
      phase_, lastDecision_ := AwaitAuthentication, AccountAuthenticationReady;
      d := lastDecision_;
    }

    method AcceptAccountAuthentication(responseAccountId: i64) returns (d: Decision)
      modifies this
      ensures (State(), d) == Accept(old(State()), AccountAuthentication(responseAccountId))
    {
      if phase_ != AwaitAuthentication || responseAccountId <= 0 || responseAccountId != accountId_ {
        d := FinishWith(InvalidAccountIdentifier);
        return;
      }
      phase_, lastDecision_ := AwaitSymbolsList, SymbolListReady;
      d := lastDecision_;
    }

    method AcceptSymbolsList(a: Answer) returns (d: Decision)
      requires a.SymbolsList?
      modifies this
      ensures (State(), d) == Accept(old(State()), a)
    {
      hide Xauusds, TransportFailure;
      if phase_ == Complete || phase_ == Terminal {
        return AlreadyTerminal;
      }
      if phase_ != AwaitSymbolsList {
        d := FinishWith(WrongPhase);
        return;
      }
      var failure := CheckTransport(a.transport);
      if failure.Some? {
        d := FinishWith(failure.value);
        return;
      }
      if a.accountId <= 0 || a.accountId != accountId_ {
        d := FinishWith(InvalidAccountIdentifier);
        return;
      }
      if a.includeArchived {
        d := FinishWith(MissingSymbolMetadata);
        return;
      }
      var found, matches := FindXauusd(a.symbols, a.archivedIds);
      if matches == 0 {
        d := FinishWith(NoCanonicalXauusd);
        return;
      }
      if matches != 1 {
        d := FinishWith(AmbiguousCanonicalXauusd);
        return;
      }
      assert found.value in Xauusds(a.symbols, a.archivedIds);
      symbolId_, symbolName_ := found.value.symbolId.value, found.value.symbolName.value;
      phase_, lastDecision_ := AwaitFullSymbol, FullSymbolReady;
      d := lastDecision_;
    }

    method AcceptFullSymbol(a: Answer) returns (d: Decision)
      requires a.FullSymbols?
      modifies this
      ensures (State(), d) == Accept(old(State()), a)
    {
      hide WithId, TransportFailure, ReadInstrument;
      if phase_ == Complete || phase_ == Terminal {
        return AlreadyTerminal;
      }
      if phase_ != AwaitFullSymbol {
        d := FinishWith(WrongPhase);
        return;
      }
      var failure := CheckTransport(a.transport);
      if failure.Some? {
        d := FinishWith(failure.value);
        return;
      }
      if a.accountId != accountId_ || a.accountId <= 0 {
        d := FinishWith(InvalidAccountIdentifier);
        return;
      }
      if symbolId_ in a.archivedIds {
        d := FinishWith(SymbolMetadataRejected);
        return;
      }
      var found, matches := FindWithId(a.fullSymbols, symbolId_);
      if matches != 1 {
        d := FinishWith(FullSymbolMismatch);
        return;
      }
      var instrument := ReadInstrument(found.value, symbolName_);
      if instrument.Err? {
        d := FinishWith(instrument.error);
        return;
      }
      instrument_ := Some(instrument.value);
      phase_, lastDecision_ := AwaitSubscription, SubscriptionReady;
      d := lastDecision_;
    }

    method AcceptSubscription(a: Answer) returns (d: Decision)
      requires a.Subscription?
      modifies this
      ensures (State(), d) == Accept(old(State()), a)
    {
      hide TransportFailure;
      if phase_ == Complete || phase_ == Terminal {
        return AlreadyTerminal;
      }
      if phase_ != AwaitSubscription {
        d := FinishWith(WrongPhase);
        return;
      }
      var failure := CheckTransport(a.transport);
      if failure.Some? {
        d := FinishWith(failure.value);
        return;
      }
      if a.accountId != accountId_ || a.accountId <= 0 || a.symbolId != symbolId_ || a.symbolId <= 0
         || a.requestedSymbolCount != 1 {
        d := FinishWith(SubscriptionMismatch);
        return;
      }
      subscriptionReady_ := true;
      phase_, lastDecision_ := AwaitSpot, SubscriptionReady;
      d := lastDecision_;
    }

    method AcceptSpot(a: Answer) returns (d: Decision)
      requires a.Spot?
      modifies this
      ensures (State(), d) == Accept(old(State()), a)
    {
      hide QuoteProof.AcceptBothSides, Classify, QuoteProof.AcceptAccountList;
      hide QuoteProof.AcceptSymbolsList, QuoteProof.AcceptFullSymbol, QuoteProof.AcceptSubscription;
      if phase_ == Complete || phase_ == Terminal {
        return AlreadyTerminal;
      }
      if phase_ != AwaitSpot || !subscriptionReady_ {
        d := FinishWith(WrongPhase);
        return;
      }
      if !a.transport.current || a.transport.generation != connectionGeneration_ {
        d := FinishWith(StaleConnectionGeneration);
        return;
      }
      if !a.transport.matched {
        d := FinishWith(SubscriptionMismatch);
        return;
      }
      if a.accountId != accountId_ || a.accountId <= 0 {
        d := FinishWith(SpotAccountMismatch);
        return;
      }
      if a.symbolId != symbolId_ || a.symbolId <= 0 {
        d := FinishWith(SpotSymbolMismatch);
        return;
      }
      if BadPrice(a.bid) || BadPrice(a.ask) {
        d := FinishWith(InvalidSpot);
        return;
      }
      if a.timestamp.Some? && a.timestamp.value < 0 {
        d := FinishWith(TimestampUnitUnproven);
        return;
      }
      if a.bid == None || a.ask == None {
        if a.timestamp.Some? {
          var verdict := ClassifyTimestampDetailed(a.timestamp.value, a.receiptTimestampNs);
          if !verdict.Ready? {
            d := FinishWith(DecisionOf(verdict));
            return;
          }
        }
        lastDecision_ := IncompleteSpotSide;
        return lastDecision_;
      }
      d := AcceptBothSides(a.bid.value, a.ask.value, a.timestamp, a.receiptTimestampNs);
    }

    method SpotPrice(raw: u64, digits: int) returns (out: Option<Decimal64>)
      requires digits >= 0
      ensures out == NormalizeSpotPrice(raw, digits)
    {
      hide NormalizeSignedScale5;
      if raw == 0 || raw > MAX_I64 {
        return None;
      }
      var units := NormalizeScale5(raw, digits);
      if units == None {
        return None;
      }
      KnownScale(raw, digits);
      out := Some(Decimal64(units.value, digits));
    }

    static lemma KnownScale(units: i64, digits: int)
      requires NormalizeSignedScale5(units, digits).Some?
      ensures 0 <= digits <= MAX_SCALE
    {
    }

    method AcceptBothSides(rawBid: u64, rawAsk: u64, timestamp: Option<i64>, receipt: u64) returns (d: Decision)
      requires timestamp.Some? ==> timestamp.value >= 0
      modifies this
      ensures State() == QuoteProof.AcceptBothSides(old(State()), rawBid, rawAsk, timestamp, receipt)
      ensures d == State().last
    {
      hide NormalizeSpotPrice, Classify;
      if rawBid > rawAsk {
        d := FinishWith(CrossedMarket);
        return;
      }
      if instrument_ == None {
        d := FinishWith(WrongPhase);
        return;
      }
      var digits := instrument_.value.digits;
      var bid := SpotPrice(rawBid, digits);
      var ask := SpotPrice(rawAsk, digits);
      if bid == None || ask == None {
        d := FinishWith(CheckedArithmeticFailed);
        return;
      }
      if bid.value.units > ask.value.units {
        d := FinishWith(CrossedMarket);
        return;
      }
      if timestamp == None {
        lastDecision_ := IncompleteSpotTimestamp;
        return lastDecision_;
      }
      var verdict := ClassifyTimestampDetailed(timestamp.value, receipt);
      if !verdict.Ready? {
        d := FinishWith(DecisionOf(verdict));
        return;
      }
      SpreadSurvives(rawBid, rawAsk, digits);
      var spread := Decimal64(ask.value.units - bid.value.units, bid.value.scale);
      quoteEvidence_ := Some(Quote(instrument_.value, bid.value, ask.value, spread, verdict.proof));
      accountId_, symbolId_, symbolName_ := 0, 0, "";
      instrument_, subscriptionReady_ := None, false;
      phase_, lastDecision_ := Complete, QuoteProofSucceeded;
      d := lastDecision_;
    }

    method End(decision: Decision) returns (d: Decision)
      modifies this
      ensures (State(), d) == Accept(old(State()), Answer.Stop(decision))
    {
      if phase_ == Complete || phase_ == Terminal {
        lastDecision_ := AlreadyTerminal;
        return lastDecision_;
      }
      d := FinishWith(decision);
    }
  }
}
