/**
 The proof that a live quote for one symbol of one account was observed: a fixed sequence of
 provider answers, each checked against what the earlier ones established. Any answer that does
 not fit ends the proof for good.
 */
module QuoteProof {
  import opened Wrappers
  import opened MachineWords
  import opened BrokerContracts
  import opened SpotArithmetic

  // ---------------------------------------------------------------------------
  // Evidence
  // ---------------------------------------------------------------------------

  /** Which connection an answer came on and whether it answers our request. */
  datatype Transport = Transport(generation: u64, current: bool, matched: bool)

  datatype AccountRecord = AccountRecord(accountId: Option<u64>, isLive: Option<bool>, brokerTitleShort: Option<string>)

  datatype LightSymbol = LightSymbol(
    symbolId: Option<i64>,
    symbolName: Option<string>,
    enabled: Option<bool>,
    archived: bool)

  datatype FullSymbol = FullSymbol(
    symbolId: Option<i64>,
    symbolName: Option<string>,
    enabled: Option<bool>,
    archived: Option<bool>,
    digits: Option<int>,
    pipPosition: Option<int>,
    minVolume: Option<i64>,
    maxVolume: Option<i64>,
    stepVolume: Option<i64>,
    lotSize: Option<i64>)

  datatype Answer =
    | AccountList(transport: Transport, tokenOwned: bool, tradingScope: bool, accounts: seq<AccountRecord>)
    | AccountAuthentication(responseAccountId: i64)
    | SymbolsList(transport: Transport, accountId: i64, includeArchived: bool, symbols: seq<LightSymbol>,
        archivedIds: seq<i64>)
    | FullSymbols(transport: Transport, accountId: i64, fullSymbols: seq<FullSymbol>, archivedIds: seq<i64>)
    | Subscription(transport: Transport, accountId: i64, symbolId: i64, requestedSymbolCount: nat)
    | Spot(transport: Transport, accountId: i64, symbolId: i64, bid: Option<u64>, ask: Option<u64>,
           timestamp: Option<i64>, receiptTimestampNs: u64)
    | Stop(decision: Decision)

  datatype Decision =
    | Started
    | AccountAuthenticationReady
    | SymbolListReady
    | FullSymbolReady
    | SubscriptionReady
    | QuoteProofSucceeded
    | AlreadyTerminal
    | WrongPhase
    | StaleConnectionGeneration
    | CorrelationRejected
    | TokenOwnershipRejected
    | TradingScopeRequired
    | InvalidAccountIdentifier
    | NoFiboDemoAccount
    | AmbiguousFiboDemoAccount
    | MissingSymbolMetadata
    | NoCanonicalXauusd
    | AmbiguousCanonicalXauusd
    | FullSymbolMismatch
    | SymbolMetadataRejected
    | SubscriptionMismatch
    | IncompleteSpotSide
    | IncompleteSpotTimestamp
    | SpotAccountMismatch
    | SpotSymbolMismatch
    | InvalidSpot
    | CrossedMarket
    | CheckedArithmeticFailed
    | TimestampUnitUnproven
    | TimestampStale
    | TimestampFuture
    | Other(reason: string)

  datatype Phase =
    | AwaitAccountList
    | AwaitAuthentication
    | AwaitSymbolsList
    | AwaitFullSymbol
    | AwaitSubscription
    | AwaitSpot
    | Complete
    | Terminal

  datatype Instrument = Instrument(
    executionAlias: string,
    digits: nat,
    pipPosition: nat,
    lotSize: i64,
    minVolume: i64,
    maxVolume: i64,
    stepVolume: i64)

  datatype Quote = Quote(
    instrument: Instrument,
    bid: Decimal64,
    ask: Decimal64,
    spread: Decimal64,
    timestamp: TimestampProof)

  datatype Proof = Proof(
    generation: u64,
    phase: Phase,
    last: Decision,
    accountId: i64,
    symbolId: i64,
    symbolName: string,
    instrument: Option<Instrument>,
    subscriptionReady: bool,
    quote: Option<Quote>)

  function Start(generation: u64): Proof {
    Proof(generation, AwaitAccountList, Started, 0, 0, "", None, false, None)
  }

  // ---------------------------------------------------------------------------
  // Selection of the account and the symbol
  // ---------------------------------------------------------------------------

  predicate IsSafeText(s: string) {
    0 < |s| <= 256 && forall i :: 0 <= i < |s| ==> s[i] >= ' ' && s[i] as int != 0x7f
  }

  predicate IsFiboDemo(a: AccountRecord) {
    && a.accountId.Some? && 0 < a.accountId.value <= MAX_I64
    && a.isLive == Some(false)
    && a.brokerTitleShort.Some? && IsSafeText(a.brokerTitleShort.value) && a.brokerTitleShort.value == "FIBO"
  }

  function FiboDemos(accounts: seq<AccountRecord>): (matches: seq<AccountRecord>)
    ensures forall a :: a in matches <==> a in accounts && IsFiboDemo(a)
  {
    if accounts == [] then []
    else
      var last := accounts[|accounts| - 1];
      assert accounts == accounts[..|accounts| - 1] + [last];
      FiboDemos(accounts[..|accounts| - 1]) + if IsFiboDemo(last) then [last] else []
  }

  function Upper(c: char): char {
    if 'a' <= c <= 'z' then c - 'a' + 'A' else c
  }

  predicate IsLetter(c: char) {
    'a' <= c <= 'z' || 'A' <= c <= 'Z'
  }

  function Slashes(name: string): nat {
    if name == "" then 0 else Slashes(name[..|name| - 1]) + if name[|name| - 1] == '/' then 1 else 0
  }

  /** The letters of the name in upper case, without slashes. */
  function Letters(name: string): string {
    if name == "" then ""
    else
      var last := name[|name| - 1];
      Letters(name[..|name| - 1]) + if last == '/' then "" else [Upper(last)]
  }

  /** XAUUSD in any letter case, with at most one slash anywhere. */
  predicate IsCanonicalXauusd(name: string) {
    && (forall i :: 0 <= i < |name| ==> name[i] == '/' || IsLetter(name[i]))
    && Slashes(name) <= 1
    && Letters(name) == "XAUUSD"
  }

  predicate IsXauusd(s: LightSymbol, archivedIds: seq<i64>) {
    && s.symbolId.Some? && s.symbolId.value > 0 && s.symbolName.Some? && s.enabled == Some(true)
    && !s.archived && s.symbolId.value !in archivedIds && IsCanonicalXauusd(s.symbolName.value)
  }

  function Xauusds(symbols: seq<LightSymbol>, archivedIds: seq<i64>): (matches: seq<LightSymbol>)
    ensures forall s :: s in matches <==> s in symbols && IsXauusd(s, archivedIds)
  {
    if symbols == [] then []
    else
      var last := symbols[|symbols| - 1];
      assert symbols == symbols[..|symbols| - 1] + [last];
      Xauusds(symbols[..|symbols| - 1], archivedIds) + if IsXauusd(last, archivedIds) then [last] else []
  }

  function WithId(symbols: seq<FullSymbol>, id: i64): (matches: seq<FullSymbol>)
    ensures forall s :: s in matches <==> s in symbols && s.symbolId == Some(id)
  {
    if symbols == [] then []
    else
      var last := symbols[|symbols| - 1];
      assert symbols == symbols[..|symbols| - 1] + [last];
      WithId(symbols[..|symbols| - 1], id) + if last.symbolId == Some(id) then [last] else []
  }

  /** The C++ remainder of two positive numbers. */
  predicate Divides(step: i64, volume: i64)
    requires step > 0 && volume > 0
  {
    volume % step == 0
  }

  /** The validated metadata of the symbol, or the reason it is refused. */
  function ReadInstrument(s: FullSymbol, name: string): Result<Instrument, Decision> {
    if s.symbolName.Some? && s.symbolName.value != name then Err(SymbolMetadataRejected)
    else if s.enabled == Some(false) || s.archived == Some(true) then Err(SymbolMetadataRejected)
    else if s.digits == None || s.pipPosition == None || s.minVolume == None || s.maxVolume == None
            || s.stepVolume == None || s.lotSize == None then Err(MissingSymbolMetadata)
    else
      var digits, pip := s.digits.value, s.pipPosition.value;
      var min, max, step, lot := s.minVolume.value, s.maxVolume.value, s.stepVolume.value, s.lotSize.value;
      if digits < 0 || pip < 0 || digits > MAX_SCALE || pip > MAX_SCALE || pip > digits
         || min <= 0 || max <= 0 || step <= 0 || lot <= 0 || min > max
         || !Divides(step, min) || !Divides(step, max) then Err(SymbolMetadataRejected)
      else Ok(Instrument(name, digits, pip, lot, min, max, step))
  }

  // ---------------------------------------------------------------------------
  // One answer
  // ---------------------------------------------------------------------------

  predicate IsTerminal(p: Proof) {
    p.phase == Complete || p.phase == Terminal
  }

  /** Ends the proof, forgetting everything. */
  function Finish(decision: Decision): Proof {
    Proof(0, Terminal, decision, 0, 0, "", None, false, None)
  }

  /** Why an answer's transport is refused, if it is. */
  function TransportFailure(p: Proof, t: Transport): Option<Decision> {
    if !t.current || t.generation == 0 || t.generation != p.generation then Some(StaleConnectionGeneration)
    else if !t.matched then Some(CorrelationRejected)
    else None
  }

  function AcceptAccountList(p: Proof, a: Answer): Proof
    requires a.AccountList?
  {
    if p.phase != AwaitAccountList then Finish(WrongPhase)
    else
      match TransportFailure(p, a.transport)
      case Some(d) => Finish(d)
      case None =>
        if !a.tokenOwned then Finish(TokenOwnershipRejected)
        else if !a.tradingScope then Finish(TradingScopeRequired)
        else
          var matches := FiboDemos(a.accounts);
          if |matches| == 0 then Finish(NoFiboDemoAccount)
          else if |matches| != 1 then Finish(AmbiguousFiboDemoAccount)
          else
            assert matches[0] in matches;
            p.(accountId := matches[0].accountId.value, phase := AwaitAuthentication,
               last := AccountAuthenticationReady)
  }

  function AcceptAuthentication(p: Proof, responseAccountId: i64): Proof {
    if p.phase == AwaitAuthentication && responseAccountId > 0 && responseAccountId == p.accountId
    then p.(phase := AwaitSymbolsList, last := SymbolListReady)
    else Finish(InvalidAccountIdentifier)
  }

  function AcceptSymbolsList(p: Proof, a: Answer): Proof
    requires a.SymbolsList?
  {
    if p.phase != AwaitSymbolsList then Finish(WrongPhase)
    else
      match TransportFailure(p, a.transport)
      case Some(d) => Finish(d)
      case None =>
        if a.accountId <= 0 || a.accountId != p.accountId then Finish(InvalidAccountIdentifier)
        else if a.includeArchived then Finish(MissingSymbolMetadata)
        else
          var matches := Xauusds(a.symbols, a.archivedIds);
          if |matches| == 0 then Finish(NoCanonicalXauusd)
          else if |matches| != 1 then Finish(AmbiguousCanonicalXauusd)
          else
            assert matches[0] in matches;
            p.(symbolId := matches[0].symbolId.value, symbolName := matches[0].symbolName.value,
               phase := AwaitFullSymbol, last := FullSymbolReady)
  }

  function AcceptFullSymbol(p: Proof, a: Answer): Proof
    requires a.FullSymbols?
  {
    if p.phase != AwaitFullSymbol then Finish(WrongPhase)
    else
      match TransportFailure(p, a.transport)
      case Some(d) => Finish(d)
      case None =>
        if a.accountId != p.accountId || a.accountId <= 0 then Finish(InvalidAccountIdentifier)
        else if p.symbolId in a.archivedIds then Finish(SymbolMetadataRejected)
        else
          var matches := WithId(a.fullSymbols, p.symbolId);
          if |matches| != 1 then Finish(FullSymbolMismatch)
          else
            match ReadInstrument(matches[0], p.symbolName)
            case Err(d) => Finish(d)
            case Ok(instrument) =>
              p.(instrument := Some(instrument), phase := AwaitSubscription, last := SubscriptionReady)
  }

  function AcceptSubscription(p: Proof, a: Answer): Proof
    requires a.Subscription?
  {
    if p.phase != AwaitSubscription then Finish(WrongPhase)
    else
      match TransportFailure(p, a.transport)
      case Some(d) => Finish(d)
      case None =>
        if a.accountId != p.accountId || a.accountId <= 0 || a.symbolId != p.symbolId || a.symbolId <= 0
           || a.requestedSymbolCount != 1 then Finish(SubscriptionMismatch)
        else p.(subscriptionReady := true, phase := AwaitSpot, last := SubscriptionReady)
  }

  function DecisionOf(v: Verdict): Decision
    requires !v.Ready?
  {
    match v
    case UnitUnproven => TimestampUnitUnproven
    case Stale => TimestampStale
    case Future => TimestampFuture
  }

  predicate BadPrice(price: Option<u64>) {
    price.Some? && (price.value == 0 || price.value > MAX_I64)
  }

  ghost function AcceptSpot(p: Proof, a: Answer): Proof
    requires a.Spot?
  {
    if p.phase != AwaitSpot || !p.subscriptionReady then Finish(WrongPhase)
    else if !a.transport.current || a.transport.generation != p.generation then Finish(StaleConnectionGeneration)
    else if !a.transport.matched then Finish(SubscriptionMismatch)
    else if a.accountId != p.accountId || a.accountId <= 0 then Finish(SpotAccountMismatch)
    else if a.symbolId != p.symbolId || a.symbolId <= 0 then Finish(SpotSymbolMismatch)
    else if BadPrice(a.bid) || BadPrice(a.ask) then Finish(InvalidSpot)
    else if a.timestamp.Some? && a.timestamp.value < 0 then Finish(TimestampUnitUnproven)
    else if a.bid == None || a.ask == None then
      if a.timestamp.Some? && !Classify(a.timestamp.value, a.receiptTimestampNs).Ready?
      then Finish(DecisionOf(Classify(a.timestamp.value, a.receiptTimestampNs)))
      else p.(last := IncompleteSpotSide)
    else AcceptBothSides(p, a.bid.value, a.ask.value, a.timestamp, a.receiptTimestampNs)
  }

  ghost function AcceptBothSides(p: Proof, rawBid: u64, rawAsk: u64, timestamp: Option<i64>, receipt: u64): Proof
    requires timestamp.Some? ==> timestamp.value >= 0
  {
    if rawBid > rawAsk then Finish(CrossedMarket)
    else if p.instrument == None then Finish(WrongPhase)
    else
      var digits := p.instrument.value.digits;
      var bid, ask := NormalizeSpotPrice(rawBid, digits), NormalizeSpotPrice(rawAsk, digits);
      if bid == None || ask == None then Finish(CheckedArithmeticFailed)
      else if bid.value.units > ask.value.units then Finish(CrossedMarket)
      else if timestamp == None then p.(last := IncompleteSpotTimestamp)
      else
        var verdict := Classify(timestamp.value, receipt);
        if !verdict.Ready? then Finish(DecisionOf(verdict))
        else
          SpreadSurvives(rawBid, rawAsk, digits);
          var spread := Decimal64(ask.value.units - bid.value.units, bid.value.scale);
          Proof(p.generation, Complete, QuoteProofSucceeded, 0, 0, "", None, false,
                Some(Quote(p.instrument.value, bid.value, ask.value, spread, verdict.proof)))
  }

  /** The next state and the decision returned. */
  ghost function Accept(p: Proof, a: Answer): (Proof, Decision) {
    if a.AccountAuthentication? then
      var next := AcceptAuthentication(p, a.responseAccountId);
      (next, next.last)
    else if a.Stop? then
      var next := if IsTerminal(p) then p.(last := AlreadyTerminal) else Finish(a.decision);
      (next, next.last)
    else if IsTerminal(p) then (p, AlreadyTerminal)
    else
      var next :=
        match a
        case AccountList(_, _, _, _) => AcceptAccountList(p, a)
        case SymbolsList(_, _, _, _, _) => AcceptSymbolsList(p, a)
        case FullSymbols(_, _, _, _) => AcceptFullSymbol(p, a)
        case Subscription(_, _, _, _) => AcceptSubscription(p, a)
        case Spot(_, _, _, _, _, _, _) => AcceptSpot(p, a)
        case _ => p;
      (next, next.last)
  }

  ghost function Run(generation: u64, answers: seq<Answer>): Proof {
    if answers == [] then Start(generation)
    else Accept(Run(generation, answers[..|answers| - 1]), answers[|answers| - 1]).0
  }
}
