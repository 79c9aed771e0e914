/** What every run of the quote proof guarantees. */
module QuoteProofRuns {
  import opened Wrappers
  import opened MachineWords
  import opened BrokerContracts
  import opened SpotArithmetic
  import opened QuoteProof

  // ---------------------------------------------------------------------------
  // What is remembered in each phase
  // ---------------------------------------------------------------------------

  predicate KnowsAccount(phase: Phase) {
    phase == AwaitAuthentication || phase == AwaitSymbolsList || KnowsSymbol(phase)
  }

  predicate KnowsSymbol(phase: Phase) {
    phase == AwaitFullSymbol || KnowsInstrument(phase)
  }

  predicate KnowsInstrument(phase: Phase) {
    phase == AwaitSubscription || phase == AwaitSpot
  }

  /** Identifiers, metadata and the quote are held exactly in the phases that need them. */
  predicate HoldsWhatItNeeds(p: Proof, generation: u64) {
    && (if KnowsAccount(p.phase) then p.accountId > 0 else p.accountId == 0)
    && (if KnowsSymbol(p.phase) then p.symbolId > 0 else p.symbolId == 0 && p.symbolName == "")
    && (p.instrument.Some? <==> KnowsInstrument(p.phase))
    && (p.subscriptionReady <==> p.phase == AwaitSpot)
    && (p.quote.Some? <==> p.phase == Complete)
    && p.generation == (if p.phase == Terminal then 0 else generation)
  }

  lemma AccountListKeepsHoldings(p: Proof, a: Answer, generation: u64)
    requires HoldsWhatItNeeds(p, generation) && a.AccountList?
    ensures HoldsWhatItNeeds(AcceptAccountList(p, a), generation)
  {
    hide FiboDemos, IsFiboDemo;
    if |FiboDemos(a.accounts)| == 1 {
      assert FiboDemos(a.accounts)[0] in FiboDemos(a.accounts);
      FiboDemoHasAccount(FiboDemos(a.accounts)[0]);
    }
  }

  lemma SymbolsListKeepsHoldings(p: Proof, a: Answer, generation: u64)
    requires HoldsWhatItNeeds(p, generation) && a.SymbolsList?
    ensures HoldsWhatItNeeds(AcceptSymbolsList(p, a), generation)
  {
    hide Xauusds, IsXauusd;
    if |Xauusds(a.symbols, a.archivedIds)| == 1 {
      assert Xauusds(a.symbols, a.archivedIds)[0] in Xauusds(a.symbols, a.archivedIds);
      XauusdHasSymbol(Xauusds(a.symbols, a.archivedIds)[0], a.archivedIds);
    }
  }

  lemma AcceptKeepsHoldings(p: Proof, a: Answer, generation: u64)
    requires HoldsWhatItNeeds(p, generation)
    ensures HoldsWhatItNeeds(Accept(p, a).0, generation)
  {
    hide AcceptAccountList, AcceptSymbolsList, WithId, ReadInstrument, NormalizeSpotPrice, Classify, Divides;
    if a.AccountList? {
      AccountListKeepsHoldings(p, a, generation);
    }
    if a.SymbolsList? {
      SymbolsListKeepsHoldings(p, a, generation);
    }
  }

  lemma FiboDemoHasAccount(a: AccountRecord)
    requires IsFiboDemo(a)
    ensures a.accountId.Some? && a.accountId.value > 0
  {
  }

  lemma XauusdHasSymbol(s: LightSymbol, archivedIds: seq<i64>)
    requires IsXauusd(s, archivedIds)
    ensures s.symbolId.Some? && s.symbolId.value > 0 && s.symbolName.Some?
  {
  }

  lemma {:induction false} RunHoldsWhatItNeeds(generation: u64, answers: seq<Answer>)
    ensures HoldsWhatItNeeds(Run(generation, answers), generation)
  {
    hide Accept;
    if answers != [] {
      RunHoldsWhatItNeeds(generation, answers[..|answers| - 1]);
      AcceptKeepsHoldings(Run(generation, answers[..|answers| - 1]), answers[|answers| - 1], generation);
    }
  }

  // ---------------------------------------------------------------------------
  // The answers that brought the proof forward
  // ---------------------------------------------------------------------------

  ghost predicate Advances(p: Proof, a: Answer) {
    var next := Accept(p, a).0;
    next.phase != p.phase && next.phase != Terminal
  }

  /** The answers, in order, that moved the proof to its next phase. */
  ghost function Milestones(generation: u64, answers: seq<Answer>): seq<Answer> {
    if answers == [] then []
    else
      var front, last := answers[..|answers| - 1], answers[|answers| - 1];
      Milestones(generation, front) + if Advances(Run(generation, front), last) then [last] else []
  }

  function Position(phase: Phase): nat {
    match phase
    case AwaitAccountList => 0
    case AwaitAuthentication => 1
    case AwaitSymbolsList => 2
    case AwaitFullSymbol => 3
    case AwaitSubscription => 4
    case AwaitSpot => 5
    case Complete => 6
    case Terminal => 7
  }

  predicate OnThisConnection(t: Transport, generation: u64) {
    t.current && t.matched && t.generation == generation
  }

  ghost predicate NamesAccount(a: Answer, generation: u64, account: i64) {
    && a.AccountList? && OnThisConnection(a.transport, generation) && a.tokenOwned && a.tradingScope
    && |FiboDemos(a.accounts)| == 1 && FiboDemos(a.accounts)[0].accountId == Some(account)
  }

  ghost predicate NamesSymbol(a: Answer, generation: u64, account: i64, symbol: i64, name: string) {
    && a.SymbolsList? && OnThisConnection(a.transport, generation) && a.accountId == account && !a.includeArchived
    && |Xauusds(a.symbols, a.archivedIds)| == 1
    && Xauusds(a.symbols, a.archivedIds)[0].symbolId == Some(symbol)
    && Xauusds(a.symbols, a.archivedIds)[0].symbolName == Some(name)
  }

  ghost predicate DescribesSymbol(a: Answer, generation: u64, account: i64, symbol: i64, name: string,
      instrument: Instrument) {
    && a.FullSymbols? && OnThisConnection(a.transport, generation) && a.accountId == account
    && symbol !in a.archivedIds
    && |WithId(a.fullSymbols, symbol)| == 1 && ReadInstrument(WithId(a.fullSymbols, symbol)[0], name) == Ok(instrument)
  }

  ghost predicate ConfirmsSubscription(a: Answer, generation: u64, account: i64, symbol: i64) {
    && a.Subscription? && OnThisConnection(a.transport, generation)
    && a.accountId == account && a.symbolId == symbol && a.requestedSymbolCount == 1
  }

  ghost predicate ShowsQuote(a: Answer, generation: u64, account: i64, symbol: i64, instrument: Instrument,
      quote: Quote) {
    && a.Spot? && OnThisConnection(a.transport, generation) && a.accountId == account && a.symbolId == symbol
    && a.bid.Some? && a.ask.Some? && 0 < a.bid.value <= a.ask.value <= MAX_I64
    && a.timestamp.Some? && a.timestamp.value >= 0
    && quote.instrument == instrument
    && NormalizeSpotPrice(a.bid.value, instrument.digits) == Some(quote.bid)
    && NormalizeSpotPrice(a.ask.value, instrument.digits) == Some(quote.ask)
    && 0 <= quote.bid.units <= quote.ask.units
    && quote.spread == Decimal64(quote.ask.units - quote.bid.units, quote.bid.scale)
    && IsVerdict(a.timestamp.value, a.receiptTimestampNs, Ready(quote.timestamp))
  }

  /** What a proof in progress has established, all for the account and the symbol it now holds. */
  ghost predicate Established(p: Proof, generation: u64, ms: seq<Answer>) {
    && |ms| == Position(p.phase)
    && (|ms| >= 1 ==> NamesAccount(ms[0], generation, p.accountId))
    && (|ms| >= 2 ==> ms[1] == AccountAuthentication(p.accountId))
    && (|ms| >= 3 ==> NamesSymbol(ms[2], generation, p.accountId, p.symbolId, p.symbolName))
    && (|ms| >= 4 ==> p.instrument.Some?)
    && (|ms| >= 4 ==> DescribesSymbol(ms[3], generation, p.accountId, p.symbolId, p.symbolName, p.instrument.value))
    && (|ms| >= 5 ==> ConfirmsSubscription(ms[4], generation, p.accountId, p.symbolId))
  }

  /** All six answers, in order, about one account and one symbol of one connection. */
  ghost predicate ProvesQuote(ms: seq<Answer>, generation: u64, account: i64, symbol: i64, name: string,
      quote: Quote) {
    && |ms| == 6 && account > 0 && symbol > 0
    && NamesAccount(ms[0], generation, account)
    && ms[1] == AccountAuthentication(account)
    && NamesSymbol(ms[2], generation, account, symbol, name)
    && DescribesSymbol(ms[3], generation, account, symbol, name, quote.instrument)
    && ConfirmsSubscription(ms[4], generation, account, symbol)
    && ShowsQuote(ms[5], generation, account, symbol, quote.instrument, quote)
  }

  ghost predicate Backed(p: Proof, generation: u64, ms: seq<Answer>) {
    match p.phase
    case Terminal => true
    case Complete =>
      p.quote.Some? && exists account, symbol, name :: ProvesQuote(ms, generation, account, symbol, name, p.quote.value)
    case _ => Established(p, generation, ms)
  }

  lemma SpotProves(p: Proof, generation: u64, ms: seq<Answer>, a: Answer)
    requires p.phase == AwaitSpot && HoldsWhatItNeeds(p, generation) && Established(p, generation, ms)
    requires a.Spot? && Accept(p, a).0.phase == Complete
    ensures Accept(p, a).0.quote.Some?
    ensures ProvesQuote(ms + [a], generation, p.accountId, p.symbolId, p.symbolName, Accept(p, a).0.quote.value)
  {
    hide FiboDemos, Xauusds, WithId, ReadInstrument, NamesAccount, NamesSymbol, DescribesSymbol, ConfirmsSubscription;
    hide NormalizeSignedScale5, Classify, IsVerdict;
    SpreadSurvives(a.bid.value, a.ask.value, p.instrument.value.digits);
  }

  lemma OnlySpotCompletes(p: Proof, a: Answer)
    requires Accept(p, a).0.phase == Complete && p.phase != Complete
    ensures p.phase == AwaitSpot && a.Spot?
  {
    hide FiboDemos, Xauusds, WithId, ReadInstrument, NormalizeSpotPrice, Classify;
  }

  /** An answer that neither advances nor ends the proof leaves what it holds alone. */
  lemma StayingKeeps(p: Proof, a: Answer)
    requires !Advances(p, a) && Accept(p, a).0.phase != Terminal
    ensures Accept(p, a).0 == p.(last := Accept(p, a).0.last)
  {
    hide FiboDemos, Xauusds, WithId, ReadInstrument, NormalizeSpotPrice, Classify;
  }

  lemma AcceptKeepsBacked(p: Proof, generation: u64, ms: seq<Answer>, a: Answer)
    requires HoldsWhatItNeeds(p, generation) && Backed(p, generation, ms)
    ensures Backed(Accept(p, a).0, generation, if Advances(p, a) then ms + [a] else ms)
  {
    if Accept(p, a).0.phase == Complete && p.phase != Complete {
      OnlySpotCompletes(p, a);
      hide Accept, ProvesQuote, Established, HoldsWhatItNeeds;
      SpotProves(p, generation, ms, a);
    } else if Advances(p, a) {
      hide Established;
      ProgressIsEstablished(p, generation, ms, a);
    } else if Accept(p, a).0.phase != Terminal {
      hide ProvesQuote;
      StayingKeeps(p, a);
    }
  }

  lemma ProgressIsEstablished(p: Proof, generation: u64, ms: seq<Answer>, a: Answer)
    requires HoldsWhatItNeeds(p, generation) && Backed(p, generation, ms)
    requires Advances(p, a) && Accept(p, a).0.phase != Complete
    ensures Established(Accept(p, a).0, generation, ms + [a])
    ensures Accept(p, a).0.phase != Terminal
  {
    hide FiboDemos, Xauusds, WithId, ReadInstrument, NormalizeSpotPrice, Classify, IsFiboDemo, IsXauusd, ProvesQuote;
    match a
    case AccountList(_, _, _, accounts) =>
      assert FiboDemos(accounts)[0] in FiboDemos(accounts);
      FiboDemoHasAccount(FiboDemos(accounts)[0]);
    case SymbolsList(_, _, _, symbols, archivedIds) =>
      assert Xauusds(symbols, archivedIds)[0] in Xauusds(symbols, archivedIds);
      XauusdHasSymbol(Xauusds(symbols, archivedIds)[0], archivedIds);
    case _ =>
  }

  lemma {:induction false} RunIsBacked(generation: u64, answers: seq<Answer>)
    ensures Backed(Run(generation, answers), generation, Milestones(generation, answers))
  {
    hide Accept, Advances, Backed;
    if answers == [] {
      StartIsBacked(generation);
    } else {
      var front, last := answers[..|answers| - 1], answers[|answers| - 1];
      RunIsBacked(generation, front);
      RunHoldsWhatItNeeds(generation, front);
      AcceptKeepsBacked(Run(generation, front), generation, Milestones(generation, front), last);
      assert Milestones(generation, front) + [] == Milestones(generation, front);
    }
  }

  lemma StartIsBacked(generation: u64)
    ensures Backed(Start(generation), generation, [])
  {
  }

  /**
   A quote is held only when the account list, the authentication, the symbol list, the full symbol,
   the subscription and the spot were accepted in that order, all for one account and one symbol of
   one connection, and the quote is what that spot showed.
   */
  lemma QuoteNeedsEveryStep(generation: u64, answers: seq<Answer>)
    ensures Run(generation, answers).quote.Some? <==> Run(generation, answers).phase == Complete
    ensures Run(generation, answers).phase == Complete ==>
              exists account, symbol, name ::
                ProvesQuote(Milestones(generation, answers), generation, account, symbol, name,
                            Run(generation, answers).quote.value)
  {
    hide ProvesQuote;
    RunHoldsWhatItNeeds(generation, answers);
    RunIsBacked(generation, answers);
  }

  // ---------------------------------------------------------------------------
  // The end is the end
  // ---------------------------------------------------------------------------

  /** Nothing revives an ended proof. */
  lemma TerminalIsPermanent(p: Proof, a: Answer)
    requires p.phase == Terminal
    ensures Accept(p, a).0.phase == Terminal
  {
  }

  lemma {:induction false} TerminalRunsStayTerminal(generation: u64, answers: seq<Answer>, n: nat)
    requires n <= |answers| && Run(generation, answers[..n]).phase == Terminal
    ensures Run(generation, answers).phase == Terminal
  {
    hide Accept;
    if n == |answers| {
      assert answers[..n] == answers;
    } else {
      var front := answers[..|answers| - 1];
      assert front[..n] == answers[..n];
      TerminalRunsStayTerminal(generation, front, n);
      TerminalIsPermanent(Run(generation, front), answers[|answers| - 1]);
    }
  }

  /** A completed proof keeps its quote under every answer except an account authentication, which discards it. */
  lemma CompletedKeepsQuoteIff(p: Proof, a: Answer)
    requires p.phase == Complete && p.quote.Some?
    ensures Accept(p, a).0.quote == p.quote <==> !a.AccountAuthentication?
    ensures a.AccountAuthentication? ==> Accept(p, a).0.phase == Terminal
  {
  }

  lemma RefusedMetadataIsNotSuccess(s: FullSymbol, name: string)
    ensures ReadInstrument(s, name) != Err(QuoteProofSucceeded)
  {
  }

  lemma RefusedTransportIsNotSuccess(p: Proof, t: Transport)
    ensures TransportFailure(p, t) != Some(QuoteProofSucceeded)
  {
  }

  lemma EarlyAnswerIsNoSuccess(p: Proof, a: Answer)
    requires (a.AccountList? || a.SymbolsList? || a.FullSymbols? || a.Subscription?) && !IsTerminal(p)
    ensures Accept(p, a).0.phase != Complete && Accept(p, a).1 != QuoteProofSucceeded
  {
    hide FiboDemos, Xauusds, WithId, TransportFailure, ReadInstrument, AcceptSpot, AcceptAuthentication;
    RefusedTransportIsNotSuccess(p, a.transport);
    if a.FullSymbols? && |WithId(a.fullSymbols, p.symbolId)| == 1 {
      RefusedMetadataIsNotSuccess(WithId(a.fullSymbols, p.symbolId)[0], p.symbolName);
    }
  }

  /** Success is reported exactly when the proof completes, unless the caller ends it under that very name. */
  lemma SuccessIsCompletion(generation: u64, answers: seq<Answer>, a: Answer)
    requires a != Answer.Stop(QuoteProofSucceeded)
    ensures var p := Run(generation, answers);
            Accept(p, a).1 == QuoteProofSucceeded <==> p.phase != Complete && Accept(p, a).0.phase == Complete
  {
    hide AcceptAccountList, AcceptSymbolsList, AcceptFullSymbol, AcceptSubscription, NormalizeSpotPrice, Classify, Run;
    var p := Run(generation, answers);
    if (a.AccountList? || a.SymbolsList? || a.FullSymbols? || a.Subscription?) && !IsTerminal(p) {
      EarlyAnswerIsNoSuccess(p, a);
    }
  }

  /** The check after rescaling never rejects: prices in order stay in order. */
  lemma NeverCrossedByRounding(p: Proof, rawBid: u64, rawAsk: u64, timestamp: Option<i64>, receipt: u64)
    requires timestamp.Some? ==> timestamp.value >= 0
    requires p.instrument.Some?
    ensures AcceptBothSides(p, rawBid, rawAsk, timestamp, receipt) == Finish(CrossedMarket) <==> rawBid > rawAsk
  {
    hide NormalizeSpotPrice, Classify;
    var digits := p.instrument.value.digits;
    if rawBid <= rawAsk && NormalizeSpotPrice(rawBid, digits).Some? && NormalizeSpotPrice(rawAsk, digits).Some? {
      SpreadSurvives(rawBid, rawAsk, digits);
    }
  }
}
