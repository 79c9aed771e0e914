/**
 Which answer brings the quote proof forward, to what, and how every other answer ends it, written
 out in the fields of the answers.
 */
module QuoteProofTable {
  import opened Wrappers
  import opened MachineWords
  import opened BrokerContracts
  import opened SpotArithmetic
  import opened SpotTable
  import opened QuoteProof
  import opened QuoteProofRuns

  // ---------------------------------------------------------------------------
  // Selecting exactly one
  // ---------------------------------------------------------------------------

  /** The `i`-th item, and no other, is wanted. */
  ghost predicate OnlyAt<T(!new)>(items: seq<T>, wanted: T -> bool, i: int) {
    0 <= i < |items| && wanted(items[i]) && forall j :: 0 <= j < |items| && j != i ==> !wanted(items[j])
  }

  ghost predicate NoneOf<T(!new)>(items: seq<T>, wanted: T -> bool) {
    forall j :: 0 <= j < |items| ==> !wanted(items[j])
  }

  ghost function Chosen<T>(items: seq<T>, wanted: T -> bool): seq<T> {
    if items == [] then []
    else
      var last := items[|items| - 1];
      Chosen(items[..|items| - 1], wanted) + if wanted(last) then [last] else []
  }

  lemma {:induction false} ChosenIsOnly<T(!new)>(items: seq<T>, wanted: T -> bool)
    ensures |Chosen(items, wanted)| == 0 <==> NoneOf(items, wanted)
    ensures |Chosen(items, wanted)| == 1 <==> exists i :: OnlyAt(items, wanted, i)
    ensures forall i | OnlyAt(items, wanted, i) :: |Chosen(items, wanted)| == 1 && Chosen(items, wanted)[0] == items[i]
  {
    if items != [] {
      var n := |items| - 1;
      var front := items[..n];
      ChosenIsOnly(front, wanted);
      assert forall j :: 0 <= j < n ==> front[j] == items[j];
      if wanted(items[n]) {
        if NoneOf(front, wanted) {
          assert OnlyAt(items, wanted, n);
        }
      } else if exists i :: OnlyAt(front, wanted, i) {
        var i :| OnlyAt(front, wanted, i);
        assert OnlyAt(items, wanted, i);
      }
      forall i | OnlyAt(items, wanted, i)
        ensures |Chosen(items, wanted)| == 1 && Chosen(items, wanted)[0] == items[i]
      {
        if i == n {
          assert NoneOf(front, wanted);
        } else {
          assert OnlyAt(front, wanted, i);
        }
      }
    }
  }

  // ---------------------------------------------------------------------------
  // The account and the symbol
  // ---------------------------------------------------------------------------

  /** A demo account of the broker FIBO with a usable identity. */
  predicate IsDemo(a: AccountRecord) {
    && a.accountId.Some? && 0 < a.accountId.value <= 0x7fff_ffff_ffff_ffff
    && a.isLive == Some(false) && a.brokerTitleShort == Some("FIBO")
  }

  lemma FiboDemosAreChosen(accounts: seq<AccountRecord>)
    ensures FiboDemos(accounts) == Chosen(accounts, IsDemo)
  {
    if accounts != [] {
      FiboDemosAreChosen(accounts[..|accounts| - 1]);
      assert IsFiboDemo(accounts[|accounts| - 1]) <==> IsDemo(accounts[|accounts| - 1]);
    }
  }

  /** The six letters, each in either case. */
  predicate SpellsGold(letters: string) {
    |letters| == 6 && forall i :: 0 <= i < 6 ==> letters[i] == "XAUUSD"[i] || letters[i] == "xauusd"[i]
  }

  /** The six letters in a row, or with one slash in front of, between or behind them. */
  ghost predicate IsGold(name: string) {
    SpellsGold(name) || exists k :: 0 <= k < |name| && name[k] == '/' && SpellsGold(name[..k] + name[k + 1..])
  }

  lemma {:induction false} NoSlash(name: string)
    requires Slashes(name) == 0
    ensures |Letters(name)| == |name|
    ensures forall i :: 0 <= i < |name| ==> name[i] != '/' && Letters(name)[i] == Upper(name[i])
  {
    if name != "" {
      NoSlash(name[..|name| - 1]);
    }
  }

  lemma {:induction false} SomeSlash(name: string) returns (k: nat)
    requires Slashes(name) > 0
    ensures k < |name| && name[k] == '/'
    ensures Slashes(name[..k] + name[k + 1..]) == Slashes(name) - 1
    ensures Letters(name[..k] + name[k + 1..]) == Letters(name)
  {
    var n := |name| - 1;
    if name[n] == '/' {
      k := n;
      assert name[..k] + name[k + 1..] == name[..n];
    } else {
      k := SomeSlash(name[..n]);
      var rest, shorter := name[..k] + name[k + 1..], name[..n][..k] + name[..n][k + 1..];
      assert rest[..|rest| - 1] == shorter && rest[|rest| - 1] == name[n];
    }
  }

  lemma {:induction false} WithoutSlash(name: string, k: nat)
    requires k < |name| && name[k] == '/'
    ensures Slashes(name) == Slashes(name[..k] + name[k + 1..]) + 1
    ensures Letters(name) == Letters(name[..k] + name[k + 1..])
  {
    var n, rest := |name| - 1, name[..k] + name[k + 1..];
    if k == n {
      assert rest == name[..n];
    } else {
      WithoutSlash(name[..n], k);
      assert rest[..|rest| - 1] == name[..n][..k] + name[..n][k + 1..] && rest[|rest| - 1] == name[n];
    }
  }

  lemma {:induction false} LettersOnly(name: string)
    requires forall i :: 0 <= i < |name| ==> name[i] != '/'
    ensures Slashes(name) == 0
  {
    if name != "" {
      LettersOnly(name[..|name| - 1]);
    }
  }

  lemma UpperLetter(c: char, upper: char)
    requires 'A' <= upper <= 'Z'
    ensures IsLetter(c) && Upper(c) == upper <==> c == upper || c == upper - 'A' + 'a'
  {
  }

  lemma UpperGold(name: string, upper: string)
    requires |upper| == |name| && forall i :: 0 <= i < |name| ==> upper[i] == Upper(name[i])
    ensures SpellsGold(name) <==> upper == "XAUUSD" && forall i :: 0 <= i < |name| ==> IsLetter(name[i])
  {
    if |name| == 6 {
      forall i | 0 <= i < 6
        ensures IsLetter(name[i]) && upper[i] == "XAUUSD"[i] <==> name[i] == "XAUUSD"[i] || name[i] == "xauusd"[i]
      {
        UpperLetter(name[i], "XAUUSD"[i]);
      }
      hide Upper, IsLetter;
      assert (forall i :: 0 <= i < 6 ==> upper[i] == "XAUUSD"[i]) <==> upper == "XAUUSD";
    }
  }

  lemma GoldWithoutSlash(name: string)
    ensures SpellsGold(name) <==>
              Slashes(name) == 0 && Letters(name) == "XAUUSD" && forall i :: 0 <= i < |name| ==> IsLetter(name[i])
  {
    if SpellsGold(name) {
      LettersOnly(name);
    }
    if Slashes(name) == 0 {
      NoSlash(name);
      UpperGold(name, Letters(name));
    }
    hide Letters, Slashes, Upper, IsLetter;
  }

  /** A name is taken for gold against dollars if and only if it spells it, with at most one slash anywhere. */
  lemma GoldIff(name: string)
    ensures IsCanonicalXauusd(name) <==> IsGold(name)
  {
    GoldWithoutSlash(name);
    forall k | 0 <= k < |name| && name[k] == '/'
      ensures Slashes(name) == Slashes(name[..k] + name[k + 1..]) + 1
      ensures Letters(name) == Letters(name[..k] + name[k + 1..])
      ensures SpellsGold(name[..k] + name[k + 1..]) ==> IsCanonicalXauusd(name)
    {
      WithoutSlash(name, k);
      var rest := name[..k] + name[k + 1..];
      GoldWithoutSlash(rest);
      if SpellsGold(rest) {
        forall i | 0 <= i < |name| ensures name[i] == '/' || IsLetter(name[i]) {
          if i < k {
            assert name[i] == rest[i];
          } else if i > k {
            assert name[i] == rest[i - 1];
          }
        }
      }
    }
    if IsCanonicalXauusd(name) && Slashes(name) == 1 {
      var k := SomeSlash(name);
      var rest := name[..k] + name[k + 1..];
      GoldWithoutSlash(rest);
      NoSlash(rest);
      forall i | 0 <= i < |rest| ensures IsLetter(rest[i]) {
        assert rest[i] == if i < k then name[i] else name[i + 1];
      }
      assert SpellsGold(rest);
    }
    if IsCanonicalXauusd(name) && Slashes(name) == 0 {
      NoSlash(name);
    }
  }

  predicate IsTradable(s: LightSymbol) {
    && s.symbolId.Some? && s.symbolId.value > 0 && s.symbolName.Some? && s.enabled == Some(true) && !s.archived
  }

  /** A symbol on offer, not archived by either list, whose name spells gold against dollars. */
  ghost predicate IsGoldOffer(s: LightSymbol, archivedIds: seq<i64>) {
    IsTradable(s) && s.symbolId.value !in archivedIds && IsGold(s.symbolName.value)
  }

  lemma XauusdsAreChosen(symbols: seq<LightSymbol>, archivedIds: seq<i64>)
    ensures Xauusds(symbols, archivedIds) == Chosen(symbols, s => IsGoldOffer(s, archivedIds))
  {
    if symbols != [] {
      var last := symbols[|symbols| - 1];
      XauusdsAreChosen(symbols[..|symbols| - 1], archivedIds);
      if last.symbolName.Some? {
        GoldIff(last.symbolName.value);
      }
      hide IsGold, IsCanonicalXauusd;
      assert IsXauusd(last, archivedIds) <==> IsGoldOffer(last, archivedIds);
    }
  }

  lemma WithIdIsChosen(symbols: seq<FullSymbol>, id: i64)
    ensures WithId(symbols, id) == Chosen(symbols, (s: FullSymbol) => s.symbolId == Some(id))
  {
    if symbols != [] {
      WithIdIsChosen(symbols[..|symbols| - 1], id);
    }
  }

  // ---------------------------------------------------------------------------
  // The metadata of the symbol
  // ---------------------------------------------------------------------------

  /** All six numbers are given. */
  predicate HasNumbers(s: FullSymbol) {
    && s.digits.Some? && s.pipPosition.Some? && s.minVolume.Some? && s.maxVolume.Some? && s.stepVolume.Some?
    && s.lotSize.Some?
  }

  /** Nothing the symbol says of itself contradicts the name it was listed under or its being on offer. */
  predicate IsOnOffer(s: FullSymbol, name: string) {
    && (s.symbolName == None || s.symbolName == Some(name))
    && s.enabled != Some(false) && s.archived != Some(true)
  }

  /** Pip position within digits within twelve; volumes positive, in order and whole steps; lot size positive. */
  ghost predicate HasSoundNumbers(s: FullSymbol)
    requires HasNumbers(s)
  {
    && 0 <= s.pipPosition.value <= s.digits.value <= 12
    && 0 < s.minVolume.value <= s.maxVolume.value && s.stepVolume.value > 0 && s.lotSize.value > 0
    && (exists n :: n * s.stepVolume.value == s.minVolume.value)
    && (exists n :: n * s.stepVolume.value == s.maxVolume.value)
  }

  lemma DividesIff(step: i64, volume: i64)
    requires step > 0 && volume > 0
    ensures Divides(step, volume) <==> exists n :: n * step == volume
  {
    if Divides(step, volume) {
      assert volume / step * step == volume;
    }
    forall n | n * step == volume ensures Divides(step, volume) {
      DivModUnique(volume, step, n, 0);
    }
  }

  /**
   The metadata is accepted if and only if the symbol is on offer under its listed name and its six
   numbers are given and sound; the instrument then has just those numbers. Otherwise it is refused
   as missing when a number is missing from a symbol on offer, and as rejected in every other case.
   */
  lemma InstrumentIff(s: FullSymbol, name: string, i: Instrument)
    ensures ReadInstrument(s, name) == Ok(i) <==>
              && IsOnOffer(s, name) && HasNumbers(s) && HasSoundNumbers(s)
              && i.executionAlias == name && s.digits == Some(i.digits) && s.pipPosition == Some(i.pipPosition)
              && s.lotSize == Some(i.lotSize) && s.minVolume == Some(i.minVolume)
              && s.maxVolume == Some(i.maxVolume) && s.stepVolume == Some(i.stepVolume)
    ensures ReadInstrument(s, name) == Err(MissingSymbolMetadata) <==> IsOnOffer(s, name) && !HasNumbers(s)
    ensures ReadInstrument(s, name).Err? ==>
              ReadInstrument(s, name).error in {MissingSymbolMetadata, SymbolMetadataRejected}
  {
    if HasNumbers(s) && s.stepVolume.value > 0 && s.minVolume.value > 0 && s.maxVolume.value > 0 {
      DividesIff(s.stepVolume.value, s.minVolume.value);
      DividesIff(s.stepVolume.value, s.maxVolume.value);
    }
    hide Divides;
  }

  // ---------------------------------------------------------------------------
  // Answers that bring the proof forward
  // ---------------------------------------------------------------------------

  /** The answer came on the proof's own connection and answers our request. */
  predicate IsHeard(p: Proof, t: Transport) {
    t.current && t.matched && t.generation == p.generation && p.generation > 0
  }

  ghost predicate OnlyGold(symbols: seq<LightSymbol>, archivedIds: seq<i64>, i: int) {
    OnlyAt(symbols, s => IsGoldOffer(s, archivedIds), i)
  }

  ghost predicate OnlyNamed(symbols: seq<FullSymbol>, id: i64, i: int) {
    OnlyAt(symbols, (s: FullSymbol) => s.symbolId == Some(id), i)
  }

  ghost predicate MovesOn(p: Proof, a: Answer) {
    match a
    case AccountList(t, tokenOwned, tradingScope, accounts) =>
      && p.phase == AwaitAccountList && IsHeard(p, t) && tokenOwned && tradingScope
      && exists i :: OnlyAt(accounts, IsDemo, i)
    case AccountAuthentication(account) => p.phase == AwaitAuthentication && 0 < account == p.accountId
    case SymbolsList(t, account, includeArchived, symbols, archivedIds) =>
      && p.phase == AwaitSymbolsList && IsHeard(p, t) && 0 < account == p.accountId && !includeArchived
      && exists i :: OnlyGold(symbols, archivedIds, i)
    case FullSymbols(t, account, symbols, archivedIds) =>
      && p.phase == AwaitFullSymbol && IsHeard(p, t) && 0 < account == p.accountId && p.symbolId !in archivedIds
      && exists i :: OnlyNamed(symbols, p.symbolId, i)
                  && IsOnOffer(symbols[i], p.symbolName) && HasNumbers(symbols[i]) && HasSoundNumbers(symbols[i])
    case Subscription(t, account, symbol, count) =>
      && p.phase == AwaitSubscription && IsHeard(p, t) && 0 < account == p.accountId && 0 < symbol == p.symbolId
      && count == 1
    case Spot(_, account, symbol, _, _, _, _) =>
      && p.phase == AwaitSpot && p.subscriptionReady && p.instrument.Some? && p.accountId > 0 && p.symbolId > 0
      && exists quote :: ShowsQuote(a, p.generation, p.accountId, p.symbolId, p.instrument.value, quote)
    case Stop(_) => false
  }

  /** What the proof holds after an answer that brings it forward. */
  ghost predicate MovedOn(p: Proof, a: Answer, q: Proof) {
    match a
    case AccountList(_, _, _, accounts) =>
      && q == p.(accountId := q.accountId, phase := AwaitAuthentication, last := AccountAuthenticationReady)
      && exists i :: OnlyAt(accounts, IsDemo, i) && accounts[i].accountId == Some(q.accountId)
    case AccountAuthentication(_) => q == p.(phase := AwaitSymbolsList, last := SymbolListReady)
    case SymbolsList(_, _, _, symbols, archivedIds) =>
      && q == p.(symbolId := q.symbolId, symbolName := q.symbolName, phase := AwaitFullSymbol, last := FullSymbolReady)
      && exists i :: OnlyGold(symbols, archivedIds, i)
                  && symbols[i].symbolId == Some(q.symbolId) && symbols[i].symbolName == Some(q.symbolName)
    case FullSymbols(_, _, symbols, _) =>
      && q == p.(instrument := q.instrument, phase := AwaitSubscription, last := SubscriptionReady)
      && q.instrument.Some?
      && exists i :: OnlyNamed(symbols, p.symbolId, i)
                  && IsInstrumentOf(symbols[i], p.symbolName, q.instrument.value)
    case Subscription(_, _, _, _) =>
      q == p.(subscriptionReady := true, phase := AwaitSpot, last := SubscriptionReady)
    case Spot(_, _, _, _, _, _, _) =>
      && q == Proof(p.generation, Complete, QuoteProofSucceeded, 0, 0, "", None, false, q.quote) && q.quote.Some?
      && p.instrument.Some?
      && ShowsQuote(a, p.generation, p.accountId, p.symbolId, p.instrument.value, q.quote.value)
    case Stop(_) => false
  }

  /** The instrument has the numbers of the symbol. */
  predicate IsInstrumentOf(s: FullSymbol, name: string, i: Instrument) {
    && i.executionAlias == name && s.digits == Some(i.digits) && s.pipPosition == Some(i.pipPosition)
    && s.lotSize == Some(i.lotSize) && s.minVolume == Some(i.minVolume)
    && s.maxVolume == Some(i.maxVolume) && s.stepVolume == Some(i.stepVolume)
  }

  lemma HeardIff(p: Proof, t: Transport)
    ensures TransportFailure(p, t) == None <==> IsHeard(p, t)
  {
  }

  lemma AccountListIff(p: Proof, a: Answer)
    requires a.AccountList?
    ensures Advances(p, a) <==> MovesOn(p, a)
    ensures MovesOn(p, a) ==> MovedOn(p, a, Accept(p, a).0)
  {
    HeardIff(p, a.transport);
    hide TransportFailure, IsHeard;
    FiboDemosAreChosen(a.accounts);
    ChosenIsOnly(a.accounts, IsDemo);
    hide FiboDemos, Chosen, IsDemo, OnlyAt, NoneOf;
  }

  lemma SymbolsListIff(p: Proof, a: Answer)
    requires a.SymbolsList?
    ensures Advances(p, a) <==> MovesOn(p, a)
    ensures MovesOn(p, a) ==> MovedOn(p, a, Accept(p, a).0)
  {
    HeardIff(p, a.transport);
    hide TransportFailure, IsHeard;
    var wanted := s => IsGoldOffer(s, a.archivedIds);
    XauusdsAreChosen(a.symbols, a.archivedIds);
    ChosenIsOnly(a.symbols, wanted);
    assert forall i :: OnlyAt(a.symbols, wanted, i) <==> OnlyGold(a.symbols, a.archivedIds, i);
    hide Xauusds, Chosen, IsGoldOffer, OnlyAt, NoneOf, OnlyGold;
  }

  lemma NamedIsChosen(symbols: seq<FullSymbol>, id: i64)
    ensures |WithId(symbols, id)| == 1 <==> exists i :: OnlyNamed(symbols, id, i)
    ensures forall i | OnlyNamed(symbols, id, i) ::
              0 <= i < |symbols| && |WithId(symbols, id)| == 1 && WithId(symbols, id)[0] == symbols[i]
    ensures forall i, j :: OnlyNamed(symbols, id, i) && OnlyNamed(symbols, id, j) ==> i == j
  {
    var named := (s: FullSymbol) => s.symbolId == Some(id);
    WithIdIsChosen(symbols, id);
    ChosenIsOnly(symbols, named);
    assert forall i :: OnlyAt(symbols, named, i) <==> OnlyNamed(symbols, id, i);
    hide WithId, Chosen, NoneOf;
  }

  lemma FullSymbolsIff(p: Proof, a: Answer)
    requires a.FullSymbols?
    ensures Advances(p, a) <==> MovesOn(p, a)
    ensures MovesOn(p, a) ==> MovedOn(p, a, Accept(p, a).0)
  {
    HeardIff(p, a.transport);
    hide TransportFailure, IsHeard;
    NamedIsChosen(a.fullSymbols, p.symbolId);
    hide WithId, OnlyNamed;
    if exists i :: OnlyNamed(a.fullSymbols, p.symbolId, i) {
      var i :| OnlyNamed(a.fullSymbols, p.symbolId, i);
      InstrumentReads(a.fullSymbols[i], p.symbolName);
      hide ReadInstrument, HasNumbers, IsOnOffer, HasSoundNumbers, IsInstrumentOf;
    }
  }

  lemma InstrumentReads(s: FullSymbol, name: string)
    ensures ReadInstrument(s, name).Ok? <==> IsOnOffer(s, name) && HasNumbers(s) && HasSoundNumbers(s)
    ensures ReadInstrument(s, name).Ok? ==> IsInstrumentOf(s, name, ReadInstrument(s, name).value)
  {
    if ReadInstrument(s, name).Ok? {
      InstrumentIff(s, name, ReadInstrument(s, name).value);
    } else if IsOnOffer(s, name) && HasNumbers(s) && HasSoundNumbers(s) {
      InstrumentIff(s, name, Instrument(name, s.digits.value, s.pipPosition.value, s.lotSize.value, s.minVolume.value,
                                        s.maxVolume.value, s.stepVolume.value));
    }
    hide ReadInstrument, IsOnOffer;
  }

  lemma AdvancedShows(p: Proof, a: Answer)
    requires a.Spot? && Advances(p, a)
    ensures MovesOn(p, a)
  {
    hide NormalizeSpotPrice, IsVerdict, Classify;
    SpreadSurvives(a.bid.value, a.ask.value, p.instrument.value.digits);
    assert ShowsQuote(a, p.generation, p.accountId, p.symbolId, p.instrument.value, Accept(p, a).0.quote.value);
  }

  lemma SpotIff(p: Proof, a: Answer)
    requires a.Spot?
    ensures Advances(p, a) <==> MovesOn(p, a)
    ensures MovesOn(p, a) ==> MovedOn(p, a, Accept(p, a).0)
  {
    hide NormalizeSpotPrice, IsVerdict, Classify;
    if MovesOn(p, a) {
      var quote :| ShowsQuote(a, p.generation, p.accountId, p.symbolId, p.instrument.value, quote);
      VerdictIsUnique(a.timestamp.value, a.receiptTimestampNs, Classify(a.timestamp.value, a.receiptTimestampNs),
                      Ready(quote.timestamp));
    } else if Advances(p, a) {
      AdvancedShows(p, a);
    }
  }

  /**
   An answer brings the proof forward if and only if it is the one the proof waits for, heard on its
   own connection, about its own account and symbol, and selects exactly one account or symbol; the
   proof then holds exactly what that answer says.
   */
  lemma MovesOnIff(p: Proof, a: Answer)
    ensures Advances(p, a) <==> MovesOn(p, a)
    ensures MovesOn(p, a) ==> MovedOn(p, a, Accept(p, a).0)
  {
    match a
    case AccountList(_, _, _, _) => AccountListIff(p, a);
    case SymbolsList(_, _, _, _, _) => SymbolsListIff(p, a);
    case FullSymbols(_, _, _, _) => FullSymbolsIff(p, a);
    case Spot(_, _, _, _, _, _, _) => SpotIff(p, a);
    case Subscription(t, _, _, _) => HeardIff(p, t);
    case AccountAuthentication(_) =>
    case Stop(_) =>
  }

  // ---------------------------------------------------------------------------
  // Answers that leave the proof waiting, and answers that end it
  // ---------------------------------------------------------------------------

  /** A spot for this proof whose prices, as far as given, are usable and in order. */
  ghost predicate IsUsableSpot(p: Proof, a: Answer)
    requires a.Spot?
  {
    && p.phase == AwaitSpot && p.subscriptionReady
    && a.transport.current && a.transport.matched && a.transport.generation == p.generation
    && 0 < a.accountId == p.accountId && 0 < a.symbolId == p.symbolId
    && (a.bid.Some? ==> 0 < a.bid.value <= MAX_I64) && (a.ask.Some? ==> 0 < a.ask.value <= MAX_I64)
    && (a.timestamp.Some? ==> a.timestamp.value >= 0)
  }

  ghost predicate IsFresh(raw: u64, receipt: u64) {
    exists proof :: IsVerdict(raw, receipt, Ready(proof))
  }

  /** One side is missing and the timestamp, when given, is fresh. */
  ghost predicate LacksSide(p: Proof, a: Answer)
    requires a.Spot?
  {
    && IsUsableSpot(p, a) && (a.bid == None || a.ask == None)
    && (a.timestamp.Some? ==> IsFresh(a.timestamp.value, a.receiptTimestampNs))
  }

  /** Both sides are there, in order and representable, and only the timestamp is missing. */
  ghost predicate LacksTimestamp(p: Proof, a: Answer)
    requires a.Spot?
  {
    && IsUsableSpot(p, a) && a.bid.Some? && a.ask.Some? && a.bid.value <= a.ask.value && a.timestamp == None
    && p.instrument.Some?
    && NormalizeSpotPrice(a.bid.value, p.instrument.value.digits).Some?
    && NormalizeSpotPrice(a.ask.value, p.instrument.value.digits).Some?
  }

  /** A proof under way waits on if and only if a spot lacks a side or its timestamp; it says which. */
  lemma WaitsOnIff(p: Proof, a: Answer)
    requires !IsTerminal(p)
    ensures var q := Accept(p, a).0;
            && (q.phase == p.phase <==> a.Spot? && (LacksSide(p, a) || LacksTimestamp(p, a)))
            && (q.phase == p.phase ==>
                  q == p.(last := if LacksSide(p, a) then IncompleteSpotSide else IncompleteSpotTimestamp))
  {
    hide FiboDemos, Xauusds, WithId, ReadInstrument, NormalizeSpotPrice, IsVerdict, Classify;
    if a.Spot? {
      if a.timestamp.Some? && a.timestamp.value >= 0 {
        FreshIff(a.timestamp.value, a.receiptTimestampNs);
      }
      hide IsFresh;
      if a.bid.Some? && a.ask.Some? && a.bid.value <= a.ask.value && p.instrument.Some?
         && NormalizeSpotPrice(a.bid.value, p.instrument.value.digits).Some?
         && NormalizeSpotPrice(a.ask.value, p.instrument.value.digits).Some?
      {
        SpreadSurvives(a.bid.value, a.ask.value, p.instrument.value.digits);
      }
    }
  }

  lemma FreshIff(raw: u64, receipt: u64)
    ensures IsFresh(raw, receipt) <==> Classify(raw, receipt).Ready?
  {
    var v := Classify(raw, receipt);
    hide Classify, IsVerdict;
    forall proof | IsVerdict(raw, receipt, Ready(proof)) ensures v == Ready(proof) {
      VerdictIsUnique(raw, receipt, v, Ready(proof));
    }
    if v.Ready? {
      assert IsVerdict(raw, receipt, Ready(v.proof));
    }
  }

  /** Why an answer that was not heard is refused. */
  function Unheard(p: Proof, t: Transport): Decision {
    if t.current && t.generation > 0 && t.generation == p.generation then CorrelationRejected
    else StaleConnectionGeneration
  }

  ghost function Untimely(raw: u64, receipt: u64): Decision {
    if IsOverdue(raw, receipt) then TimestampStale
    else if IsAhead(raw, receipt) then TimestampFuture
    else TimestampUnitUnproven
  }

  predicate IsUnusable(price: Option<u64>) {
    price.Some? && !(0 < price.value <= MAX_I64)
  }

  ghost function SpotRefusal(p: Proof, a: Answer): Decision
    requires a.Spot?
  {
    if p.phase != AwaitSpot || !p.subscriptionReady then WrongPhase
    else if !a.transport.current || a.transport.generation != p.generation then StaleConnectionGeneration
    else if !a.transport.matched then SubscriptionMismatch
    else if a.accountId <= 0 || a.accountId != p.accountId then SpotAccountMismatch
    else if a.symbolId <= 0 || a.symbolId != p.symbolId then SpotSymbolMismatch
    else if IsUnusable(a.bid) || IsUnusable(a.ask) then InvalidSpot
    else if a.timestamp.Some? && a.timestamp.value < 0 then TimestampUnitUnproven
    else if a.bid.Some? && a.ask.Some? && a.bid.value > a.ask.value then CrossedMarket
    else if a.bid.Some? && a.ask.Some? && p.instrument == None then WrongPhase
    else if a.bid.Some? && a.ask.Some?
            && (NormalizeSpotPrice(a.bid.value, p.instrument.value.digits) == None
                || NormalizeSpotPrice(a.ask.value, p.instrument.value.digits) == None) then CheckedArithmeticFailed
    else if a.timestamp == None then InvalidSpot
    else Untimely(a.timestamp.value, a.receiptTimestampNs)
  }

  /** The first check an answer fails, in the order the checks are made. */
  ghost function Refusal(p: Proof, a: Answer): Decision {
    match a
    case AccountList(t, tokenOwned, tradingScope, accounts) =>
      if p.phase != AwaitAccountList then WrongPhase
      else if !IsHeard(p, t) then Unheard(p, t)
      else if !tokenOwned then TokenOwnershipRejected
      else if !tradingScope then TradingScopeRequired
      else if NoneOf(accounts, IsDemo) then NoFiboDemoAccount else AmbiguousFiboDemoAccount
    case AccountAuthentication(_) => InvalidAccountIdentifier
    case SymbolsList(t, account, includeArchived, symbols, archivedIds) =>
      if p.phase != AwaitSymbolsList then WrongPhase
      else if !IsHeard(p, t) then Unheard(p, t)
      else if account <= 0 || account != p.accountId then InvalidAccountIdentifier
      else if includeArchived then MissingSymbolMetadata
      else if NoneOf(symbols, s => IsGoldOffer(s, archivedIds)) then NoCanonicalXauusd else AmbiguousCanonicalXauusd
    case FullSymbols(t, account, symbols, archivedIds) =>
      if p.phase != AwaitFullSymbol then WrongPhase
      else if !IsHeard(p, t) then Unheard(p, t)
      else if account <= 0 || account != p.accountId then InvalidAccountIdentifier
      else if p.symbolId in archivedIds then SymbolMetadataRejected
      else if !exists i :: OnlyNamed(symbols, p.symbolId, i) then FullSymbolMismatch
      else if exists i :: OnlyNamed(symbols, p.symbolId, i) && IsOnOffer(symbols[i], p.symbolName)
                       && !HasNumbers(symbols[i])
      then MissingSymbolMetadata else SymbolMetadataRejected
    case Subscription(t, _, _, _) =>
      if p.phase != AwaitSubscription then WrongPhase
      else if !IsHeard(p, t) then Unheard(p, t)
      else SubscriptionMismatch
    case Spot(_, _, _, _, _, _, _) => SpotRefusal(p, a)
    case Stop(decision) => decision
  }

  /** Ended with that decision, and nothing else remembered. */
  function Ended(decision: Decision): Proof {
    Proof(0, Terminal, decision, 0, 0, "", None, false, None)
  }

  lemma UnheardIff(p: Proof, t: Transport)
    ensures !IsHeard(p, t) ==> TransportFailure(p, t) == Some(Unheard(p, t))
    ensures IsHeard(p, t) ==> TransportFailure(p, t) == None
  {
  }

  lemma SpotEnds(p: Proof, a: Answer)
    requires !IsTerminal(p) && a.Spot? && Accept(p, a).0.phase == Terminal
    ensures Accept(p, a).0 == Ended(SpotRefusal(p, a))
  {
    hide NormalizeSpotPrice;
    if a.bid.Some? && a.ask.Some? && p.instrument.Some? && a.bid.value <= a.ask.value
       && NormalizeSpotPrice(a.bid.value, p.instrument.value.digits).Some?
       && NormalizeSpotPrice(a.ask.value, p.instrument.value.digits).Some?
    {
      SpreadSurvives(a.bid.value, a.ask.value, p.instrument.value.digits);
    }
    if a.timestamp.Some? && a.timestamp.value >= 0 {
      UntimelyIff(a.timestamp.value, a.receiptTimestampNs);
    }
    hide Classify, NearestIsPast, NearestIsFuture, OnlyQualifier, IsOverdue, IsAhead;
  }

  lemma AccountListEnds(p: Proof, a: Answer)
    requires !IsTerminal(p) && a.AccountList? && Accept(p, a).0.phase == Terminal
    ensures Accept(p, a).0 == Ended(Refusal(p, a))
  {
    UnheardIff(p, a.transport);
    hide TransportFailure, IsHeard, Unheard;
    FiboDemosAreChosen(a.accounts);
    ChosenIsOnly(a.accounts, IsDemo);
    hide FiboDemos, Chosen, IsDemo, OnlyAt, NoneOf;
  }

  lemma SymbolsListEnds(p: Proof, a: Answer)
    requires !IsTerminal(p) && a.SymbolsList? && Accept(p, a).0.phase == Terminal
    ensures Accept(p, a).0 == Ended(Refusal(p, a))
  {
    UnheardIff(p, a.transport);
    hide TransportFailure, IsHeard, Unheard;
    XauusdsAreChosen(a.symbols, a.archivedIds);
    ChosenIsOnly(a.symbols, s => IsGoldOffer(s, a.archivedIds));
    hide Xauusds, Chosen, IsGoldOffer, OnlyAt, NoneOf;
  }

  lemma FullSymbolsEnd(p: Proof, a: Answer)
    requires !IsTerminal(p) && a.FullSymbols? && Accept(p, a).0.phase == Terminal
    ensures Accept(p, a).0 == Ended(Refusal(p, a))
  {
    UnheardIff(p, a.transport);
    hide TransportFailure, IsHeard, Unheard;
    NamedIsChosen(a.fullSymbols, p.symbolId);
    hide WithId, OnlyNamed;
    if exists i :: OnlyNamed(a.fullSymbols, p.symbolId, i) {
      var i :| OnlyNamed(a.fullSymbols, p.symbolId, i);
      InstrumentIff(a.fullSymbols[i], p.symbolName, Instrument("", 0, 0, 0, 0, 0, 0));
      hide ReadInstrument, HasNumbers, IsOnOffer;
    } else {
      hide ReadInstrument, HasNumbers, IsOnOffer;
    }
  }

  /**
   Every other answer to a proof under way ends it, forgetting everything but the decision, which is
   the first check the answer fails; an ended proof takes no answer any more.
   */
  lemma EndsIff(p: Proof, a: Answer)
    ensures !IsTerminal(p) ==>
              && (Accept(p, a).0.phase == Terminal <==>
                    !MovesOn(p, a) && !(a.Spot? && (LacksSide(p, a) || LacksTimestamp(p, a))))
              && (Accept(p, a).0.phase == Terminal ==> Accept(p, a).0 == Ended(Refusal(p, a)))
    ensures IsTerminal(p) ==>
              Accept(p, a).0 == (if a.AccountAuthentication? then Ended(InvalidAccountIdentifier)
                                 else if a.Stop? then p.(last := AlreadyTerminal) else p)
    ensures Accept(p, a).1 ==
              if IsTerminal(p) && !a.AccountAuthentication? then AlreadyTerminal else Accept(p, a).0.last
  {
    if !IsTerminal(p) {
      MovesOnIff(p, a);
      WaitsOnIff(p, a);
      if Accept(p, a).0.phase == Terminal {
        AnswerEnds(p, a);
      }
      hide MovesOn, MovedOn, LacksSide, LacksTimestamp, Accept, Refusal;
    }
  }

  lemma AnswerEnds(p: Proof, a: Answer)
    requires !IsTerminal(p) && Accept(p, a).0.phase == Terminal
    ensures Accept(p, a).0 == Ended(Refusal(p, a))
  {
    match a
    case AccountList(_, _, _, _) => AccountListEnds(p, a);
    case SymbolsList(_, _, _, _, _) => SymbolsListEnds(p, a);
    case FullSymbols(_, _, _, _) => FullSymbolsEnd(p, a);
    case Spot(_, _, _, _, _, _, _) => SpotEnds(p, a);
    case Subscription(t, _, _, _) => UnheardIff(p, t);
    case AccountAuthentication(_) =>
    case Stop(_) =>
  }
}
