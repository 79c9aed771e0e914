# Verified model of the trading engine

This project models the exact cores of a C++ trading engine in Dafny 4.11 and proves what they
promise. `dafny verify dfyconfig.toml` checks all of it.

What is modelled, and where:

- **Money.** 128-bit products from 32-bit limbs, restoring division, three rounding modes, and the
  financial operations on top (`MachineWords`, `WideArithmetic`, `FinancialMath`).
- **Ledger.** Opening, adding to, closing and marking long positions; snapshot and restore
  (`PortfolioLedger`, `LedgerConservation`, `LedgerEffects`, `LedgerHistory`, `ValuationOrder`,
  `LedgerSnapshot`, and the object `PortfolioManager`).
- **Orders.** The order lifecycle store, the gateway, the simulated broker that calls back inside each
  call, and the engine that turns cumulative fills into ledger entries (`OrderLifecycle`,
  `LifecycleInvariant`, `LifecycleTable`, `StepNormalization`, `OrderAcceptance`, `ExecutionBooking`,
  `ExactlyOnce`, `BookingEffects`, `EntrySizing`, `BrokerGatewayModel`, `AdapterFills`, `BrokerAgreement`,
  `GatewayTable`, `GatewayExactlyOnce`, and the objects `OrderLifecycleStore`, `BrokerGateway`,
  `ExecutionEngine`).
- **Framing.** WebSocket frames (sections 5.2 to 5.5 of RFC 6455), their incremental parser and the
  messages it delivers (`WebSocket`, `WebSocketMessages`, `WebSocketClient`).
- **Queue.** The single-producer single-consumer ring as interleaved atomic steps (`RingBuffer`,
  `LockFreeRingBuffer`).
- **Snapshots.** The binary sections, hexadecimal, checksum, JSON envelope, validation and loading
  (`ByteCodec`, `SnapshotFormat`, `EnvelopeText`, `SnapshotEnvelope`, `SnapshotLayout`,
  `SnapshotLoading`, `LedgerRestart`, `RuntimeRestart`, `StateSerializer`).
- **Order book.** Price ladders with cached best indices (`OrderBookLadder`, `OrderBookRuns`,
  `OrderBookContents`, `L2OrderBook`).
- **Risk.** Rolling return windows, the covariance matrix and the diversified value at risk
  (`ReturnStatistics`, `AssetReturns`, `RiskFigures`, `RiskEngine`).
- **Quote proof.** Price rescaling, timestamp units and the phase machine (`SpotArithmetic`,
  `SpotTable`, `QuoteProof`, `QuoteProofRuns`, `QuoteProofTable`, `Gate7Proof`).
- **Authorization guard.** Base64url (section 5 of RFC 4648), the callback query (section 4.1.2 of
  RFC 6749) and the one-shot guard (`Base64Url`, `OAuthQuery`, `OAuthGuard`, `OAuthTable`,
  `OAuthCorrelation`).

Each part that changes state is modelled twice: as functions of a value, about which the theorems are
proved, and as a class or a loop with the source's own fields and steps, proved to compute those
functions. What the functions do is stated a third time without naming them, in the terms of their
arguments and results (`LedgerEffects`, `BookingEffects`, `AdapterFills`, `OrderBookContents`,
`WebSocketMessages`, `SnapshotLayout`, and the modules whose names end in `Table`). Failures
(exceptions, empty optionals, refusals) are part of the results.

Assumptions that hold throughout:

- Money, prices and quantities are exact signed 64-bit integers at scale 8. The source passes some of
  them through `double` between classes; that passage is taken to be exact.
- Drawdowns, returns, prices of the order book and covariances are exact reals. Doubles that are only
  stored are 64-bit words, and `RealOf` gives the number a finite one stands for.
- The iteration order of hash tables is arbitrary: statements that depend on it are made for every
  order (`HashOrder`).
- Event keys composed by the gateway and the adapter differ from the keys callers choose.
- Each public call is one step; atomic operations of the ring are sequentially consistent.

Where the code and its own documentation or expectation differ, the model follows the code:

- A reconciliation may lower the filled quantity, and a sequence of zero resets the last sequence
  (`FilledFallsOnlyByReconciliation`, `ZeroSequenceResets`).
- A cancel answered as already filled is never applied (`AlreadyFilledIsNeverApplied`).
- A partial close can round the remaining cost to nothing, and the ledger then cannot be restored from
  its own snapshot (`SnapshotRoundTrip`, `ReachableButNotRestorable`).
- Selling what is left then logs a trade without an entry price, after which no snapshot of that ledger
  can be saved (`SavableIff`, `UnpricedTradeStays`, `ReachableButNeverSavable`).
- Whether positions with large losses can be valued, and so restored, depends on the iteration order of
  the table (`ValuedInEveryOrderIff`, `RestoresInEveryOrderIff`, `OrderDecidesRestore`).
- A minimum quantity finer than the step can be undercut (`AcceptedQuantityWithinBounds`,
  `MinimumIsKeptIff`, `MinimumFinerThanStep`).
- Normalizing a value below one step gives nothing, which is refused when normalized again
  (`NormalizingAgainIsIdentity`, `BelowOneStepIsRefusedAgain`).
- Saving does not check the limits loading enforces (`SavedStateLoads`, `LongLogCannotLoad`,
  `SavedButNeverLoads`).
- Mixing best-quote and level updates can lose the best level (`RunsKeepBestIff`,
  `ReplaceBboKeepsExtremeIff`, `MixedRunsCanMissTheBest`).
- Shortly after the epoch one timestamp can be fresh in two units (`AmbiguousIff`, `AmbiguousIsRefused`).
- A completed quote proof is discarded by a late account authentication (`CompletedKeepsQuoteIff`).
- A positive raw price can be rescaled to zero (`PositivePriceIff`).

## Model

| member | source | states |
|---|---|---|
| WideArithmetic.MultiplyWide | src/FinancialMath.cpp:23-43 | the four 32-bit limb products assemble to the exact 128-bit product, including the carry into the high word |
| WideArithmetic.DivideWide | src/FinancialMath.cpp:52-81 | restoring division bit by bit yields the true floor quotient and remainder, and fails exactly for a zero divisor or a quotient of 2^64 or more |
| FinancialMath.SignedQuotient | src/FinancialMath.cpp:83-117 | the signed exact quotient rounded in the requested mode, or nothing when it is unaligned or does not fit a signed 64-bit integer |
| FinancialMath.RoundedIsTheRounding | src/FinancialMath.cpp:83-117 | a rounding result is returned exactly when it is the integer the mode describes (nearest with ties away from zero, toward zero, or exact) |
| FinancialMath.ExactIffRepresentable | src/FinancialMath.cpp:83-117 | a representable integer is returned if and only if it is the required rounding of the exact rational |
| FinancialMath.ComputeScaledProduct | src/FinancialMath.cpp:178-187 | product over 10^8, computed from magnitudes and sign, equals the exact rational rounded in the requested mode |
| FinancialMath.ComputeScaledRatio | src/FinancialMath.cpp:189-203 | ratio times 10^8 equals the exact rational rounded in the requested mode; a zero denominator has no result |
| FinancialMath.ComputeProportionalUnits | src/FinancialMath.cpp:205-216 | total times part over whole equals the exact rational rounded in the requested mode |
| FinancialMath.CheckedAdd | src/FinancialMath.cpp:158-166 | the overflow guards succeed exactly when the true sum fits 64 bits |
| FinancialMath.CheckedSubtract | src/FinancialMath.cpp:168-176 | the overflow guards succeed exactly when the true difference fits 64 bits |
| FinancialMath.RoundedBetween | src/FinancialMath.cpp:83-117 | rounding in any mode never leaves an interval of integers that contains the exact value |
| FinancialMath.ProportionalWithin | src/FinancialMath.cpp:338-346 | the share of a non-negative total never fails, lies between nothing and all of it, and the whole share is the total |
| FinancialMath.SlippageIsAdverse | src/FinancialMath.cpp:288-301 | a buy never fills below the market price and a sale never above it |
| FinancialMath.SizingIsAffordable | src/FinancialMath.cpp:274-326 | a positive quantity sized from a budget has a positive cost, and cost plus fee fits the budget whatever the three roundings do |
| FinancialMath.NotionalIff | src/FinancialMath.cpp:274-279 | a notional is a given amount if and only if that amount is the nearest rounding of price times quantity over 10^8 |
| FinancialMath.FeeIff | src/FinancialMath.cpp:281-286 | a fee is a given amount if and only if that amount is the nearest rounding of notional times rate over 10^8 |
| FinancialMath.ApplySlippageIff | src/FinancialMath.cpp:288-301 | a slipped price is a given price if and only if market price and rate are in range and it is the positive nearest rounding of the price times one plus the rate for a buy, one minus it for a sale |
| FinancialMath.QuantityForNotionalIff | src/FinancialMath.cpp:303-312 | a quantity for a budget is a given one if and only if it is budget times 10^8 over price, truncated, for a budget that is not negative and a positive price |
| FinancialMath.NotionalBeforeFeeIff | src/FinancialMath.cpp:314-326 | a budget before its fee is a given amount if and only if it is budget times 10^8 over 10^8 plus rate, truncated |
| FinancialMath.AveragePriceIff | src/FinancialMath.cpp:328-336 | an average price is a given price if and only if it is the nearest rounding of cost times 10^8 over quantity |
| FinancialMath.ProportionalIff | src/FinancialMath.cpp:338-346 | a share is a given amount if and only if the part is within the whole and it is the nearest rounding of total times part over whole |
| LedgerConservation.ValueStateIsExact | src/PortfolioManager.cpp:28-66 | in whatever order the table is traversed, the valuation is the exact sum over positions and the peak and worst drawdown never fall |
| LedgerConservation.OpenLongConserves | src/PortfolioManager.cpp:77-183 | an entry conserves the books: cash, cost basis, fees and valuation move together; explicit units are bought exactly |
| LedgerConservation.AddToLongConserves | src/PortfolioManager.cpp:185-263 | growing a position conserves the books and adds exactly the quantity |
| LedgerConservation.ClosePositionConserves | src/PortfolioManager.cpp:265-382 | a partial or full close conserves the books although fee share and cost share are each rounded |
| LedgerConservation.ClosePositionQuantity | src/PortfolioManager.cpp:265-382 | exactly the requested quantity is sold, never more than held, and the position disappears exactly when nothing is left |
| LedgerConservation.UpdatePnLConserves | src/PortfolioManager.cpp:384-400 | marking changes only the valuation, and keeps the books |
| LedgerConservation.StepFrame | src/PortfolioManager.cpp:77-400 | an operation touches no other symbol, and a mark changes no quantity |
| LedgerConservation.RunConserves | src/PortfolioManager.cpp:28-400 | every run of operations, failing ones included, keeps the conservation law and the invariant |
| LedgerConservation.EquityIdentity | src/PortfolioManager.cpp:28-400 | equity is starting cash plus logged realized profit plus unrealized profit less open entry fees; fees paid are open entry fees plus logged fees; cash is not negative; every average is cost over quantity |
| LedgerConservation.PeakNeverFalls | src/PortfolioManager.cpp:28-75 | the peak equity of a longer run is at least that of the shorter one |
| LedgerEffects.ValueStateRevalues | src/PortfolioManager.cpp:28-75 | a valuation is the exact marked total, unrealized profit and equity; the peak is the larger of old peak and equity, the drawdown the distance from the peak as a share of it, and the worst drawdown the larger of old and new |
| LedgerEffects.OpenLongIff | src/PortfolioManager.cpp:77-183 | an entry succeeds if and only if the symbol is new, the arguments are valid, and the quantity it buys (as given, or what the budget less the fee buys, truncated), its rounded cost and average price are affordable and representable; the ledger then holds exactly that position, its cash has fallen by cost and fee and its fees risen by the fee |
| LedgerEffects.OpenRefusesArguments | src/PortfolioManager.cpp:77-120 | an entry is refused as an invalid argument if and only if the symbol is empty, or new and some argument is out of range |
| LedgerEffects.AddToLongIff | src/PortfolioManager.cpp:185-263 | adding succeeds if and only if the rounded cost and fee are within cash and given capital and every sum fits; quantity, cost basis and entry fee then grow by exactly quantity, cost and fee, the average is the rounded cost over quantity, and the mark is the fill price |
| LedgerEffects.AddOpensIff | src/PortfolioManager.cpp:185-200 | adding to a symbol that is not held opens it, with the capital as budget if there is one |
| LedgerEffects.ClosePositionIff | src/PortfolioManager.cpp:265-382 | a close succeeds if and only if the quantity is held and the sale is representable; cost and entry fee leaving the position are the nearest roundings of their share sold over held (the whole at a full close), cash rises by rounded proceeds less fee, and the logged trade has times, prices and quantity of position and order, gross profit proceeds less that cost, and realized profit gross less both fees |
| LedgerEffects.UpdatePnLIff | src/PortfolioManager.cpp:384-400 | a mark succeeds if and only if it is positive and the new valuation fits; it makes the given price the position’s last mark, revalues, and changes nothing else |
| LedgerHistory.RunKeepsTallied | src/PortfolioManager.cpp:77-382 | over every run fees paid, trade and round-trip counts never fall, the trade log only grows, and every logged trade has a symbol, a positive exit price, a positive quantity and no negative fee |
| ValuationOrder.AccumulateIff | src/PortfolioManager.cpp:28-66 | one traversal of the table succeeds if and only if the marked total fits 64 bits and no partial sum of gains along it falls below -2^63 |
| ValuationOrder.ValuedInEveryOrderIff | src/PortfolioManager.cpp:28-66 | valuation succeeds in every iteration order if and only if marked total and equity fit 64 bits and the losses of all losing positions together do |
| ValuationOrder.ValuedInSomeOrderIff | src/PortfolioManager.cpp:28-66 | valuation succeeds in some iteration order if and only if marked total, equity and total unrealized profit fit 64 bits |
| ValuationOrder.ValuationIsUnique | src/PortfolioManager.cpp:28-66 | any two iteration orders that succeed give the same valuation |
| LedgerSnapshot.SnapshotRoundTrip | src/PortfolioManager.cpp:442-550 | the exact outcome of restoring the snapshot of any sound ledger: the ledger itself, or invalid argument when fees are negative or an open position has no positive cost and average, or overflow when its positions cannot be valued in that iteration order |
| LedgerSnapshot.SnapshotRoundTripOrders | src/PortfolioManager.cpp:442-550 | the ledger comes back in every iteration order if and only if fees are not negative, every open position has a positive cost and average, and all losses together fit 64 bits; without the last it still comes back in some order |
| LedgerSnapshot.RecordedRestores | src/PortfolioManager.cpp:518-538 | the same outcome when the two drawdowns were rounded within the tolerance on the way, and nothing but these two numbers differs afterwards |
| LedgerSnapshot.RestoresInEveryOrderIff | src/PortfolioManager.cpp:476-550 | a snapshot accepted in one iteration order restores to the same ledger in every other if and only if all losses together fit 64 bits |
| LedgerSnapshot.OrderDecidesRestore | src/PortfolioManager.cpp:518-523 | one concrete snapshot restores in one iteration order and overflows in another |
| LedgerSnapshot.RestoreThenSnapshot | src/PortfolioManager.cpp:442-550 | the snapshot of a restored ledger is the snapshot it was restored from |
| LedgerSnapshot.RestoredBooksAgree | src/PortfolioManager.cpp:476-550 | whatever is restored has sound positions and a valuation equal to the exact totals |
| LedgerSnapshot.ReachableButNotRestorable | src/PortfolioManager.cpp:512-516 | two operations reach a ledger whose snapshot is refused, for every iteration order |
| PortfolioManagers.PortfolioManager.ValueState | src/PortfolioManager.cpp:28-66 | the accumulating loop computes the specified valuation or its overflow |
| PortfolioManagers.PortfolioManager.OpenLong | src/PortfolioManager.cpp:77-183 | the object moves to the ledger that `LedgerEffects.OpenLongIff` describes, or throws and is unchanged |
| PortfolioManagers.PortfolioManager.AddToLong | src/PortfolioManager.cpp:185-263 | the object moves to the ledger that `LedgerEffects.AddToLongIff` and `AddOpensIff` describe, or throws and is unchanged |
| PortfolioManagers.PortfolioManager.ClosePosition | src/PortfolioManager.cpp:265-382 | the object moves to the ledger that `LedgerEffects.ClosePositionIff` describes, proportional cost and fee included, or throws and is unchanged |
| PortfolioManagers.PortfolioManager.UpdatePnL | src/PortfolioManager.cpp:384-400 | the object moves to the ledger that `LedgerEffects.UpdatePnLIff` describes, or throws and is unchanged |
| PortfolioManagers.PortfolioManager.SnapshotState | src/PortfolioManager.cpp:442-474 | the snapshot lists every position once, by ascending symbol |
| PortfolioManagers.PortfolioManager.RestoreState | src/PortfolioManager.cpp:476-550 | the outcome depends on the snapshot alone; a refusal changes nothing |
| LifecycleInvariant.RunKeepsSound | src/OrderLifecycleStore.cpp:21-432 | over every run of events, filled plus remaining is the requested quantity at one scale, the states without fills have none, remaining zero means filled or reconciled, and audit keys are distinct and exactly the applied ones |
| LifecycleInvariant.EventFrame | src/OrderLifecycleStore.cpp:304-334 | an event leaves other orders and terminal orders exactly as they were |
| LifecycleInvariant.TerminalIsFinal | src/OrderLifecycleStore.cpp:359-366 | a terminal order never changes again |
| LifecycleInvariant.KeyAppliesOnce | src/OrderLifecycleStore.cpp:336-339 | an event key is applied at most once, over all orders |
| LifecycleInvariant.TrailIsAppliedEvents | src/OrderLifecycleStore.cpp:304-334 | after any run the audit trail of an order is the list of the events of that run that were applied to it, with their keys and sequences |
| LifecycleInvariant.TrailRisesIffEventsAreNumbered | src/OrderLifecycleStore.cpp:8-17 | after any run an audit trail rises strictly if and only if every event applied to the order after the first carries a positive sequence |
| LifecycleInvariant.PositiveSequencesRise | src/OrderLifecycleStore.cpp:8-17 | when every event of a run carries a positive sequence, every audit trail rises strictly |
| LifecycleInvariant.ZeroSequenceResets | src/OrderLifecycleStore.cpp:12-16 | a concrete run whose audit trail does not rise, because a sequence of zero resets the last one |
| LifecycleInvariant.FilledFallsOnlyByReconciliation | src/OrderLifecycleStore.cpp:252-295 | the filled quantity falls exactly when a reconciliation reports less |
| LifecycleInvariant.AlreadyFilledIsNeverApplied | src/OrderLifecycleStore.cpp:172-219 | a cancel answer of already filled is never applied |
| LifecycleTable.AppliedIff | src/OrderLifecycleStore.cpp:21-432 | each of the ten events is applied if and only if its line of a table holds, written out in states, quantities, keys, sequence numbers and timestamps |
| LifecycleTable.RefusedIff | src/OrderLifecycleStore.cpp:21-334 | an event that is not applied changes nothing, and is refused as unknown, invalid, duplicate or an invalid transition by the first of these that fits |
| LifecycleTable.AppliedBecomes | src/OrderLifecycleStore.cpp:21-357 | an applied event spends its key and makes of its order, and of no other, exactly what the table says: the state for every event and cancel disposition, quantities, failure, clock and one audit entry |
| LifecycleTable.RejectedCancelRestores | src/OrderLifecycleStore.cpp:145-219 | a cancel that the broker rejects leaves the order in the state, quantities and external identity it had before, with two more audit entries |
| OrderLifecycleStores.OrderLifecycleStore.CreateOrder | src/OrderLifecycleStore.cpp:21-46 | the object accepts or refuses an order as specified |
| OrderLifecycleStores.OrderLifecycleStore.ApplyAcknowledgement | src/OrderLifecycleStore.cpp:68-103 | the object applies or refuses an acknowledgement as specified |
| OrderLifecycleStores.OrderLifecycleStore.ApplyExecution | src/OrderLifecycleStore.cpp:105-143 | the object applies or refuses an execution exactly as the lines of `LifecycleTable` for fills say |
| OrderLifecycleStores.OrderLifecycleStore.RequestCancel | src/OrderLifecycleStore.cpp:145-170 | the object applies or refuses a cancel request as specified |
| OrderLifecycleStores.OrderLifecycleStore.ApplyCancelResult | src/OrderLifecycleStore.cpp:172-219 | the object applies or refuses a cancel answer as specified |
| OrderLifecycleStores.OrderLifecycleStore.ApplyReconciliation | src/OrderLifecycleStore.cpp:252-295 | the object applies or refuses a reconciled quantity as specified |
| OrderLifecycleStores.OrderLifecycleStore.Transition | src/OrderLifecycleStore.cpp:304-334 | the object moves between states exactly where the transition table allows |
| ExactlyOnce.FillsAreBookedExactlyOnce | src/ExecutionEngine.cpp:347-473 | for any run of fresh, duplicate, stale or malformed events, each order has booked at most its recorded cumulative fill, exactly it when the latest accepted event was applied cleanly, and the position is the initial one plus booked buys less booked sells |
| ExactlyOnce.BookedExecutionCatchesUp | src/ExecutionEngine.cpp:347-473 | an accepted event that is applied without error brings the booked quantity to the recorded cumulative fill |
| ExactlyOnce.ToUnitsIsExact | src/ExecutionEngine.cpp:347-473 | the conversion of a broker quantity to ledger units loses nothing when it succeeds |
| BookingEffects.ToUnitsIff | src/ExecutionEngine.cpp:359-368 | a decimal converts to units of 10^-8 if and only if it is exactly that many of them |
| BookingEffects.FillOfIff | src/ExecutionEngine.cpp:359-389 | an execution reports a fill if and only if its four numbers are whole units in range and something of the cumulative quantity is new |
| BookingEffects.ExecutionIff | src/ExecutionEngine.cpp:347-473 | an execution is booked if and only if its order is known and of the engine’s symbol, it reports a fill, and the ledger takes that fill at the execution’s own price and fee; the ledger is then the one after that entry or sale, and otherwise only an error is counted |
| BookingEffects.BookedExecutionMovesMoney | src/ExecutionEngine.cpp:391-457 | a booked execution raises fees paid by its fee; a buy lowers cash by the rounded value of the new quantity at the fill price plus the fee and raises the cost basis by that value, a sale raises cash by it less the fee and logs the fill price as exit price |
| BookingEffects.FeesPaidAreFeesCharged | src/ExecutionEngine.cpp:347-473 | over every run the fees paid are the initial ones plus the fees of all booked executions and of the other operations that succeeded |
| BookingEffects.CountersCount | src/ExecutionEngine.cpp:353-389 | over every run the engine has counted every booked execution and every accepted one it could not book |
| GatewayExactlyOnce.GatewayBooksExactlyOnce | src/BrokerGateway.cpp:223-320 | the same holds over any run of dispatches, cancels and connections through the gateway with the simulated broker calling back inside each call |
| ExecutionEngines.SizeEntry | src/ExecutionEngine.cpp:155-231 | the sizing code returns a quantity whose positive cost and fee fit the budget; the last guard never fires after a resize |
| ExecutionEngines.AffordableFits | src/ExecutionEngine.cpp:190-231 | whenever an affordable quantity exists its cost and debit exist and fit |
| EntrySizing.AffordableIff | src/ExecutionEngine.cpp:187-203 | a budget affords a quantity if and only if it is positive and what the budget less the fee buys at the price, both cut to whole units |
| EntrySizing.CostOfIff | src/ExecutionEngine.cpp:205-209 | cost and fee of a quantity are the nearest roundings, and the debit is their sum |
| EntrySizing.SlotsShareCash | src/ExecutionEngine.cpp:187-192 | with free slots, as many budgets as there are slots cost no more than the cash, and less than one unit per slot is left over |
| EntrySizing.FillingSpendsCash | src/ExecutionEngine.cpp:164-192 | filling the free slots one after the other spends the whole cash, and no budget differs from the first by more than a unit |
| EntrySizing.WholeBudget | src/ExecutionEngine.cpp:167-192 | the budget is the whole cash for a volatility-sized entry, without a limit on positions, and for the last slot |
| ExecutionEngines.ExecutionEngine.OnBrokerExecution | src/ExecutionEngine.cpp:347-473 | the object turns a cumulative fill into the ledger entry, fee included, that `BookingEffects.ExecutionIff` describes |
| StepNormalization.RescaleTowardZero | src/BrokerGateway.cpp:10-30 | the digit-by-digit loop gives the value truncated toward zero at the target scale, or overflow |
| StepNormalization.RescaleNeverGains | src/BrokerGateway.cpp:10-30 | rescaling never increases a value, loses less than one unit of the target scale, and nothing when that scale is finer |
| StepNormalization.StepBelowValue | src/BrokerGateway.cpp:32-46 | the normalized value is a multiple of the step, at most the value, and less than one step below it |
| StepNormalization.SomethingLeftIff | src/BrokerGateway.cpp:32-46 | something is left after normalizing if and only if the value is worth at least one step |
| StepNormalization.NormalizingAgainIsIdentity | src/BrokerGateway.cpp:32-46 | normalizing again changes nothing if and only if the value was worth at least one step |
| StepNormalization.BelowOneStepIsRefusedAgain | src/BrokerGateway.cpp:32-46 | a tenth normalized to whole units gives nothing, and normalizing that again is refused |
| StepNormalization.AcceptedQuantityWithinBounds | src/BrokerGateway.cpp:185-196 | an accepted quantity is a positive multiple of the step, at most the request and the maximum, and below the minimum if and only if the request and the instrument meet a condition on their inputs alone: cutting the minimum to the step scale lost something, left a multiple of the step, and the request is within one step above it |
| StepNormalization.MinimumIsKeptIff | src/BrokerGateway.cpp:185-196 | for each instrument, some request is accepted below the minimum if and only if the instrument alone meets its part of that condition |
| StepNormalization.AcceptedOrderWithinBounds | src/BrokerGateway.cpp:142-196 | an accepted order keeps its request, its quantity is bounded as above, and each price it carries is cut to the tick and not raised |
| StepNormalization.MinimumFinerThanStep | src/BrokerGateway.cpp:185-196 | a concrete instrument whose minimum is finer than its step accepts a quantity below the minimum |
| OrderAcceptance.NormalizedIff | src/BrokerGateway.cpp:32-46 | a value is normalized to a step if and only if both are positive and it is expressible at the step’s scale, and then to the multiple of the step at most the value and less than one step below it |
| OrderAcceptance.OrderAcceptedIff | src/BrokerGateway.cpp:142-221 | a request is accepted if and only if it is identified, asks for something, carries the price its type needs, its instrument is complete, its quantity is a positive number of steps between the cut bounds, and its prices can be cut; the order then is that request with that quantity and those prices |
| BrokerAgreement.OnlyAllowedDispatchesEnter | src/BrokerGateway.cpp:223-296 | over any run, an order that is in the store and was not before was dispatched in that run, allowed by risk, with just the request the store records |
| BrokerAgreement.DeniedNeverEnters | src/BrokerGateway.cpp:223-296 | over any run in which every dispatch of an order is denied by risk, the order never enters the store |
| BrokerAgreement.OrdersChangeOnlyByCancel | src/BrokerGateway.cpp:223-320 | over any run, an order in the store keeps its request, and keeps its whole record unless the run asks to cancel that order |
| BrokerAgreement.DispatchComesToRest | src/BrokerGateway.cpp:223-296 | a dispatched order was not known before, ends the call filled, partially filled or rejected with its normalized request recorded, and no other record changes |
| BrokerAgreement.CancelKeepsAgree | src/BrokerGateway.cpp:297-320 | an accepted cancel takes a partially filled order to canceled at both sides |
| BrokerAgreement.BrokerAgreesWithStore | src/DeterministicBrokerAdapter.cpp:106-291 | over any run, the broker reports as pending exactly the orders the store holds as partially filled, and no order is left in between |
| GatewayTable.OpenOrderIff | src/BrokerGateway.cpp:246-275 | an order is opened by its three lifecycle events, or refused because it is not new or a key composed for it is spent |
| GatewayTable.DispatchIff | src/BrokerGateway.cpp:223-295 | a dispatch is refused when risk denies it, then without a connection, then when the order is not new, then when a composed key is spent, and a refusal submits nothing; otherwise the store takes the events that open the order and those of the broker’s answer |
| GatewayTable.AcknowledgementIs | src/BrokerGateway.cpp:527-546 | an acknowledgement is one lifecycle event, and an error is counted unless it is applied and accepting |
| GatewayTable.ExecutionEventIs | src/BrokerGateway.cpp:548-573 | an execution is one lifecycle event: applied it counts as a fill, a duplicate as nothing, and anything else as an error |
| GatewayTable.CancelIff | src/BrokerGateway.cpp:297-320 | a cancel is taken if and only if the adapter is connected and the store takes the request; the store then takes the broker’s answer too, and the broker no longer holds the order |
| GatewayTable.ConnectionsBalance | src/DeterministicBrokerAdapter.cpp:51-146 | over any run through the gateway every disconnection but a lasting one was followed by a reconnection |
| AdapterFills.SubmissionIff | src/DeterministicBrokerAdapter.cpp:121-235 | a submission is accepted if and only if it meets no fault and its first fill has a price, a value and a fee; it is then reported filled by exactly the ratio’s whole units or everything, at the named price moved by the slippage rate, with the fee of that value |
| AdapterFills.FillsAreAdverse | src/DeterministicBrokerAdapter.cpp:205-212 | the fill of a buy is at or above the price the order names, of a sale at or below it |
| AdapterFills.SubmissionLeaves | src/DeterministicBrokerAdapter.cpp:121-234 | after a submission the adapter keeps the order as pending exactly when it was accepted and filled in part; a fault spends the injected error, anything else the fill ratio |
| AdapterFills.DigitsDenote | src/DeterministicBrokerAdapter.cpp:173-174 | the digits written for an identity are decimal digits and denote it |
| BrokerGateways.DeterministicBrokerAdapter.Submit | src/DeterministicBrokerAdapter.cpp:106-248 | the adapter answers a submission and updates its pending table as specified |
| BrokerGateways.DeterministicBrokerAdapter.Cancel | src/DeterministicBrokerAdapter.cpp:250-272 | the adapter answers a cancel and forgets the order as specified |
| BrokerGateways.DeterministicBrokerAdapter.Reconcile | src/DeterministicBrokerAdapter.cpp:274-291 | the reconciliation lists exactly the pending orders |
| BrokerGateways.BrokerGateway.DispatchOrder | src/BrokerGateway.cpp:223-296 | gateway, store, adapter, engine and ledger together move as specified |
| BrokerGateways.BrokerGateway.RequestCancel | src/BrokerGateway.cpp:297-320 | gateway, store and adapter together move as specified |
| BrokerGateways.BrokerGateway.HandleExecution | src/BrokerGateway.cpp:548-573 | an execution reaches the engine only when the store applied it |
| WebSocket.EncodedFramePops | src/AsyncNetworkClient.cpp:1289-1454 | popping an encoded frame returns that frame and leaves whatever follows, for payloads up to 2^20 bytes; a longer one is treated as a close |
| WebSocket.PopIsStable | src/AsyncNetworkClient.cpp:1385-1454 | bytes that arrive later never change a frame already complete |
| WebSocket.MaskedTwice | src/AsyncNetworkClient.cpp:1313-1327 | masking twice with one key gives back the payload |
| WebSocket.ChunkingDoesNotMatter | src/AsyncNetworkClient.cpp:1377-1519 | however a byte stream is cut into reads, the receiver ends in the same state as reading it whole |
| WebSocket.WireDeliversFrames | src/AsyncNetworkClient.cpp:1377-1519 | frames encoded, concatenated and cut arbitrarily are handled exactly as if handed over one by one |
| WebSocket.FragmentedMessageDeliveredOnce | src/AsyncNetworkClient.cpp:1460-1503 | a fragmented message interleaved with pings and pongs is delivered once as its concatenation, if not empty |
| WebSocket.SecureEnvelopeTwice | src/AsyncNetworkClient.cpp:1335-1343 | the envelope undoes itself |
| WebSocketMessages.ReceiverFollowsFrames | src/AsyncNetworkClient.cpp:1455-1518 | for every receiver and every sequence of frames, what is delivered, answered and counted is exactly what the frames before the first close say: every final data frame’s payload and every reassembled message that is not empty, in order; a close ends the connection and drops what was collected |
| WebSocketMessages.StreamDeliversMessages | src/AsyncNetworkClient.cpp:1377-1519 | whatever bytes arrive, however cut into reads, the callback gets exactly the messages of the frames in them up to the first close; a close or an oversized frame ends the connection, and otherwise the unfinished frame is kept |
| WebSocketMessages.EveryStreamIsFrames | src/AsyncNetworkClient.cpp:1385-1454 | every stream of bytes is a sequence of frames and a tail that waits for more or is too long |
| WebSocketMessages.PopOneIff | src/AsyncNetworkClient.cpp:1385-1454 | a buffer yields a frame if and only if it starts with that frame’s bytes, spelled out as in section 5.2 of RFC 6455; it is refused if and only if it announces more than 2^20 bytes, and otherwise waits |
| WebSocketMessages.EncodedFrameCarries | src/AsyncNetworkClient.cpp:1289-1333 | a built frame carries its opcode, final flag, key and payload, with the shortest length field that can hold the length |
| WebSocketClients.BuildWsFrame | src/AsyncNetworkClient.cpp:1289-1333 | the byte loops build the encoded frame, whose popping gives the frame back |
| WebSocketClients.XorSecureEnvelope | src/AsyncNetworkClient.cpp:1335-1343 | the loop applies the envelope, and applying it again restores the input |
| WebSocketClients.WsReceiver.OnRead | src/AsyncNetworkClient.cpp:1377-1519 | one read extends the buffer and handles every complete frame in it, with the deliveries that `WebSocketMessages.StreamDeliversMessages` describes |
| WebSocketClients.WsReceiver.PopOneFrame | src/AsyncNetworkClient.cpp:1385-1454 | one complete frame is removed from the buffer, or nothing is |
| RingBuffer.FifoUnderEveryInterleaving | include/LockFreeRingBuffer.hpp:14-35 | under every interleaving of the atomic steps, popped values are the first pushed ones in order, occupied slots hold exactly the rest, at most capacity less one are held, and the sides never share a slot |
| RingBuffer.RefusedIffFull | include/LockFreeRingBuffer.hpp:14-24 | a push is refused exactly when the ring is full at the moment it reads the other index |
| RingBuffer.RefusedIffEmpty | include/LockFreeRingBuffer.hpp:26-35 | a pop is refused exactly when the ring is empty at the moment it reads the other index |
| RingBuffer.WriteSparesLiveSlots | include/LockFreeRingBuffer.hpp:20-22 | the slot about to be written holds no value still to be popped |
| RingBuffer.SidesUseDifferentSlots | include/LockFreeRingBuffer.hpp:20-33 | producer and consumer never touch the same slot at the same time |
| RingBuffer.CallsComplete | include/LockFreeRingBuffer.hpp:14-44 | a push that begins while there is room completes whatever the consumer does in between, and a pop that begins while something is held completes and takes the oldest value whatever the producer does |
| RingBuffer.SizeIsExactWhenQuiet | include/LockFreeRingBuffer.hpp:46-54 | read while neither index moves, the size is the number of values held |
| LockFreeRingBuffers.LockFreeRingBuffer.Push | include/LockFreeRingBuffer.hpp:14-24 | an uninterrupted push appends the value or is refused by a full ring |
| LockFreeRingBuffers.LockFreeRingBuffer.Pop | include/LockFreeRingBuffer.hpp:26-44 | an uninterrupted pop returns the oldest value or is refused by an empty ring |
| LockFreeRingBuffers.LockFreeRingBuffer.CheckRoom | include/LockFreeRingBuffer.hpp:16-19 | one atomic step of a push, with its verdict |
| LockFreeRingBuffers.LockFreeRingBuffer.Size | include/LockFreeRingBuffer.hpp:46-54 | the size of a quiet ring |
| ByteCodec.FieldsAgree | src/StateSerializer.cpp:23-129 | for every primitive field, reading undoes writing whatever follows, and accepted bytes are the encoding of what was read |
| ByteCodec.ListReadsBack | src/StateSerializer.cpp:131-157 | a list of readable items is read back in order |
| ByteCodec.ListIsCanonical | src/StateSerializer.cpp:139-157 | an accepted list re-encodes to the same bytes and is within the item limit |
| ByteCodec.TableReadsBack | src/StateSerializer.cpp:264-270 | a table written by ascending key is read back whole |
| ByteCodec.ReadTableFits | src/StateSerializer.cpp:310-331 | a table that was read has distinct non-empty keys within the limit |
| SnapshotFormat.PortfolioLawful | src/StateSerializer.cpp:159-262 | the portfolio section is read back as written with what follows left over, and one that was accepted re-encodes to the same bytes within the limits |
| SnapshotFormat.RiskAgrees | src/StateSerializer.cpp:272-332 | the risk section is read back as written, and what is read is within the limits |
| SnapshotFormat.RegimeLawful | src/StateSerializer.cpp:334-350 | the regime section is read back as written, and one that was accepted re-encodes to the same bytes within the limits |
| SnapshotFormat.PhiTableAgrees | src/StateSerializer.cpp:352-369 | the allocator section is read back as written and is within limits when read |
| SnapshotFormat.EncodedPayloadDecodes | src/StateSerializer.cpp:597-652 | decoding an encoded payload gives back every section with no byte left over |
| SnapshotFormat.DecodedPayloadFits | src/StateSerializer.cpp:641-652 | an accepted payload is within the limits, and encoding it again means the same |
| SnapshotFormat.EncodingIsInjective | src/StateSerializer.cpp:597-600 | different payloads have different encodings |
| SnapshotEnvelope.HexDecodesIff | src/StateSerializer.cpp:380-403 | a text decodes to bytes exactly when, but for letter case, it is their encoding |
| SnapshotEnvelope.OneDamagedByteIsCaught | src/StateSerializer.cpp:371-375 | changing exactly one byte changes the checksum |
| SnapshotEnvelope.PrimeMultiplyUndone | src/StateSerializer.cpp:371-375 | multiplying by the checksum prime modulo 2^64 is undone by its inverse, so it loses nothing |
| SnapshotEnvelope.Hex64IsInjective | src/StateSerializer.cpp:376-379 | different checksums have different sixteen-digit texts |
| SnapshotEnvelope.CanonicalParses | src/StateSerializer.cpp:405-424 | the text searches find every field of the canonical envelope |
| SnapshotEnvelope.AcceptedIff | src/StateSerializer.cpp:618-640 | a file is accepted exactly when it is the current envelope around some spelling of the payload and that payload’s own checksum |
| SnapshotEnvelope.SavedFileLoads | src/StateSerializer.cpp:601-640 | a written file yields its payload back if and only if the payload is within the size limit |
| SnapshotEnvelope.DamagedByteIsRefused | src/StateSerializer.cpp:637-640 | a payload differing from the saved one in exactly one byte is refused |
| SnapshotEnvelope.OneDamagedCharacter | src/StateSerializer.cpp:611-640 | changing one character of the payload text to anything makes the file unloadable, unless only letter case changed |
| SnapshotLayout.EncodingIsSpelled | src/StateSerializer.cpp:159-369 | encoding a payload writes exactly the bytes of its fields, listed flat in the order of the format, lowest byte first |
| SnapshotLayout.SpelledPayloadDecodes | src/StateSerializer.cpp:641-652 | the bytes of a payload’s fields decode to that payload |
| SnapshotLayout.ChecksumIs | src/StateSerializer.cpp:371-375 | the checksum starts from its basis, and each byte is joined by exclusive or and multiplied by the prime modulo 2^64 |
| SnapshotLayout.EnvelopeIs | src/StateSerializer.cpp:602-607 | the envelope’s text, field by field and line by line |
| SnapshotLayout.HexDigitIff | src/StateSerializer.cpp:380-393 | a digit is written small, and read small or capital |
| SnapshotLayout.TextLimit | src/StateSerializer.cpp:92-101 | a written text is read again if and only if it has at most a mebibyte |
| SnapshotLoading.SavedStateLoads | src/StateSerializer.cpp:578-666 | a state saved under one iteration order loads under another as itself if and only if its ledger restores in that order and the state is within the reader’s limits, which saving does not check |
| SnapshotLoading.LongLogCannotLoad | src/StateSerializer.cpp:139-157 | a saved state with more than a million logged trades never loads |
| SnapshotLoading.SavedButNeverLoads | src/StateSerializer.cpp:578-666 | one concrete state is saved, and loading the file fails |
| SnapshotLoading.DamagedFileIsRefused | src/StateSerializer.cpp:611-666 | a saved state whose payload text was altered in one character does not load |
| LedgerRestart.SavableIff | src/StateSerializer.cpp:426-503 | a ledger a run has reached can be saved if and only if every open position has a positive cost and average, every logged trade a positive entry price, its positions can be valued, and the other fields of the record are valid |
| LedgerRestart.UnpricedTradeStays | src/StateSerializer.cpp:484-492 | once a trade without an entry price has been logged, no continuation of the run can be saved |
| LedgerRestart.ReachableButNeverSavable | src/StateSerializer.cpp:484-492 | three operations leave a flat ledger from which no continuation can be saved |
| LedgerRestart.LedgerSurvivesRestart | src/StateSerializer.cpp:578-666 | a ledger a run has reached, recorded and saved, comes back from the file to the unit under every iteration order in which the file loads, and it loads under every one if and only if the state is within the reader’s limits and all losses together fit 64 bits |
| RuntimeRestart.RestartRestores | src/StateSerializer.cpp:578-665 | a running system that is saved and loaded again comes back: orders, risk, checkpoint and, when asked for, regime and allocator become the saved ones, whatever they were, and the ledger becomes the saved ledger |
| RuntimeRestart.LoadsIff | src/StateSerializer.cpp:611-665 | a file loads as a state if and only if its payload decodes to it, it has the sections asked for, every number in it is one, every name is given, positions, orders, trades and matrix are well-formed, the ledger restores, and it was saved under the running configuration with limits no looser |
| RuntimeRestart.DoubleIs | src/StateSerializer.cpp:35-40 | a stored finite double, normal or subnormal, stands for the number of section 3.4 of IEEE 754 |
| StateSerializers.Writer.Integer | src/StateSerializer.cpp:49-54 | the byte loop appends the little-endian digits |
| StateSerializers.Writer.Text | src/StateSerializer.cpp:41-44 | length and bytes are appended |
| StateSerializers.Reader.Integer | src/StateSerializer.cpp:112-120 | the byte loop reads the number and advances by its width, or fails on a short buffer |
| StateSerializers.Reader.Text | src/StateSerializer.cpp:92-101 | a string is read, or refused for its length |
| StateSerializers.WritePayload | src/StateSerializer.cpp:597-600 | the procedures of all sections, called in order, write exactly the encoding of the payload |
| StateSerializers.ReadPayload | src/StateSerializer.cpp:641-652 | the procedures of all sections, called in order, decode exactly what the format decodes, and nothing may be left over |
| StateSerializers.Checksum | src/StateSerializer.cpp:371-375 | the loop computes the checksum |
| StateSerializers.HexEncode | src/StateSerializer.cpp:380-387 | the loop computes the hexadecimal text |
| StateSerializers.HexDecode | src/StateSerializer.cpp:394-403 | the loop decodes the text or refuses it |
| StateSerializers.ValidatePortfolio | src/StateSerializer.cpp:426-503 | the validating loops and the detached restore accept exactly the valid portfolio records |
| StateSerializers.ValidateOrders | src/StateSerializer.cpp:468-483 | the loop accepts exactly the orders with names, distinct non-zero identities and a next identity beyond them |
| StateSerializers.StateSerializer.SaveSnapshot | src/StateSerializer.cpp:578-609 | a state is refused or written as specified |
| StateSerializers.StateSerializer.LoadSnapshot | src/StateSerializer.cpp:611-666 | a failed load leaves ledger and runtime as they were; a successful one restores all of it |
| OrderBookRuns.LevelRunsKeepBest | src/L2OrderBook.cpp:29-73 | after any run of level updates and resets, the cached indices are the highest bid and lowest ask level, or -1 |
| OrderBookRuns.BboRunsKeepBest | src/L2OrderBook.cpp:75-133 | after any run of best-quote updates and resets, the cached index is the only positive level of its side |
| OrderBookRuns.RunsKeepLive | src/L2OrderBook.cpp:12-133 | in any mixed run a cached index names a positive level |
| OrderBookLadder.ReplaceBboKeepsExtremeIff | src/L2OrderBook.cpp:75-133 | a best-quote update keeps the cached index exact if and only if the outgoing quote was not the best or no other positive level lies beyond the new one |
| OrderBookRuns.RunsKeepBestIff | src/L2OrderBook.cpp:12-133 | the cached indices are the best levels throughout a run of any updates if and only if no best-quote update in it is overtaken |
| OrderBookRuns.MixedRunsCanMissTheBest | src/L2OrderBook.cpp:112-119 | four updates of a new book after which it reports a bid of 100 while 101 is live, and then no quote at all |
| OrderBookContents.LevelUpdateWrites | src/L2OrderBook.cpp:29-73 | a level update is accepted if and only if its price is positive and its quantity not negative; the level covering the price then holds exactly the quantity, every other level of both sides and the other side’s index are as once the ladder had a place for the price, and the cached index follows |
| OrderBookContents.QuoteUpdateWrites | src/L2OrderBook.cpp:75-133 | a best quote is accepted if and only if its prices are positive and not crossed; on each side the last best quote’s level is emptied, the level covering the new price holds its quantity when positive, and every other level stays |
| OrderBookContents.ResetEmpties | src/L2OrderBook.cpp:12-27 | a reset empties both sides, around the reference price when that is positive and nowhere otherwise |
| OrderBookContents.MappableIff | src/L2OrderBook.cpp:176-193 | the ladder moves to a price, emptied, if and only if it has no place yet or the price is more than a quarter of the ladder away |
| OrderBookContents.ToIndexIff | src/L2OrderBook.cpp:195-215 | a price is mapped to a level if and only if that level’s price is nearest to it, the higher of two; the outermost levels take all beyond |
| OrderBookContents.LevelsHoldLastSizes | src/L2OrderBook.cpp:12-73 | after any run of level updates and resets every level of both sides holds the size of the last update that wrote it since the ladder was last emptied |
| OrderBookContents.LevelRunsReportBest | src/L2OrderBook.cpp:12-154 | after any run of level updates and resets a quote is reported if and only if both sides have a live level, and it is the highest live bid and the lowest live ask with their prices and sizes |
| OrderBookRuns.QuoteIsReported | src/L2OrderBook.cpp:75-154 | on a book fed by best quotes, an accepted quote is what is reported, in order, and within half a tick |
| OrderBookLadder.ToIndexIsMonotone | src/L2OrderBook.cpp:195-207 | a higher price never has a lower index, clamped or not |
| OrderBookLadder.InReachIsExact | src/L2OrderBook.cpp:176-215 | a price within a quarter of the ladder is never clamped and maps back to within half a tick |
| L2OrderBooks.L2OrderBook.ApplyBidLevel | src/L2OrderBook.cpp:29-50 | the bid array holds the quantity at the price’s level, and arrays and indices move as `OrderBookContents.LevelUpdateWrites` describes |
| L2OrderBooks.L2OrderBook.ApplyAskLevel | src/L2OrderBook.cpp:52-73 | the ask array holds the quantity at the price’s level, and arrays and indices move as `OrderBookContents.LevelUpdateWrites` describes |
| L2OrderBooks.L2OrderBook.ApplyBbo | src/L2OrderBook.cpp:75-133 | the arrays and indices of both sides move as specified |
| L2OrderBooks.L2OrderBook.RefreshBestBidFrom | src/L2OrderBook.cpp:233-246 | the downward scan finds the highest positive level below the start |
| L2OrderBooks.L2OrderBook.RefreshBestAskFrom | src/L2OrderBook.cpp:248-261 | the upward scan finds the lowest positive level from the start |
| L2OrderBooks.L2OrderBook.Recenter | src/L2OrderBook.cpp:217-231 | both ladders are emptied around the new base |
| L2OrderBooks.L2OrderBook.Reset | src/L2OrderBook.cpp:12-27 | both ladders are emptied, with or without a new base |
| L2OrderBooks.L2OrderBook.Bbo | src/L2OrderBook.cpp:135-154 | the reported quote is the specified one |
| AssetReturns.WindowsHoldRecentReturns | src/RiskEngine.cpp:186-208 | however observations of different symbols interleave, each window holds that symbol’s own most recent returns in order |
| AssetReturns.MatrixIsSymmetric | src/RiskEngine.cpp:246-268 | the covariance matrix is symmetric |
| AssetReturns.ValueAtRiskIsDiversified | src/RiskEngine.cpp:271-301 | the diversified value at risk never exceeds the undiversified one |
| RiskFigures.ValueAtRiskIsLossDeviation | src/RiskEngine.cpp:271-301 | the value at risk is 1.645 deviations of the money the holdings gain in a period: its square is 1.645 squared times the quadratic form of the amounts held, which is the variance of the returns summed with those amounts |
| RiskFigures.WeightsAreShares | src/RiskEngine.cpp:279-290 | each weight times the equity is the money held |
| RiskFigures.SharedWindowIsRecent | src/RiskEngine.cpp:214-249 | the covariance is taken over the symbols with at least two returns, in ascending order, and of each the most recent returns, as many as the shortest window has |
| RiskFigures.ReturnsCompound | src/RiskEngine.cpp:196-204 | over positive prices, compounding the returns leads from the first price to the last |
| ReturnStatistics.PortfolioVarianceIsVariance | src/RiskEngine.cpp:214-298 | the quadratic form in the weights is the population variance of the weighted return series, hence not negative |
| ReturnStatistics.DiversifiedNeverExceeds | src/RiskEngine.cpp:214-298 | the quadratic form is at most the square of the sum of weighted deviations |
| ReturnStatistics.CauchySchwarz | src/RiskEngine.cpp:246-268 | the square of a covariance sum is at most the product of the two variance sums |
| ReturnStatistics.CovarianceIsSymmetric | src/RiskEngine.cpp:246-268 | covariance does not depend on the order of its arguments |
| RiskEngines.RiskEngine.PushAssetReturn | src/RiskEngine.cpp:186-212 | the window rolls, the matrix becomes current, and the deviation is the root of the portfolio variance |
| RiskEngines.RiskEngine.RebuildCovMatrix | src/RiskEngine.cpp:214-269 | the matrix holds the covariance of every pair of participants over the shared window |
| RiskEngines.RiskEngine.CollectAssetOrder | src/RiskEngine.cpp:216-230 | the participants are listed by ascending symbol whatever the iteration order |
| RiskEngines.RiskEngine.FillCovMatrix | src/RiskEngine.cpp:238-268 | filling the upper triangle and mirroring it fills the whole matrix |
| RiskEngines.RiskEngine.QuadraticForm | src/RiskEngine.cpp:290-297 | the double loop computes the quadratic form |
| RiskEngines.RiskEngine.UpdateDiversifiedVaR | src/RiskEngine.cpp:271-301 | deviation and value at risk follow from the current matrix |
| SpotArithmetic.RoundIsNearest | src/CTraderGate7Proof.cpp:757-777 | rounding is within half a unit, and halves move away from zero |
| SpotArithmetic.HalfUpIff | src/CTraderGate7Proof.cpp:757-777 | the rounded quotient is characterised by the half-open interval around it |
| SpotArithmetic.NormalizeIsMonotone | src/CTraderGate7Proof.cpp:734-778 | rescaling keeps the order of prices |
| SpotArithmetic.SpreadSurvives | src/CTraderGate7Proof.cpp:780-791 | a bid not above its ask is not above it after rescaling |
| SpotArithmetic.PositivePriceIff | src/CTraderGate7Proof.cpp:780-791 | a positive raw price stays positive exactly when it is at least half a unit of the coarser scale |
| SpotArithmetic.AmbiguousIff | src/CTraderGate7Proof.cpp:799-866 | some timestamp is fresh in two units if and only if the receipt is at most 120.125125125 seconds after the epoch |
| SpotArithmetic.ReadyIffFreshInSomeUnit | src/CTraderGate7Proof.cpp:799-866 | for every later receipt a timestamp is ready if and only if it is fresh in some unit |
| SpotArithmetic.AmbiguousIsRefused | src/CTraderGate7Proof.cpp:799-866 | for every receipt up to that threshold one given timestamp is fresh and refused as unproven |
| SpotArithmetic.VerdictIsUnique | src/CTraderGate7Proof.cpp:799-866 | raw timestamp and receipt determine the verdict |
| SpotTable.SpotPriceIff | src/CTraderGate7Proof.cpp:734-791 | a spot price is accepted if and only if it is positive and representable at the digits, and is then the nearest price at those decimals, halves up |
| SpotTable.ReadyIff | src/CTraderGate7Proof.cpp:799-866 | a timestamp is ready if and only if it is fresh in exactly one unit (at most two minutes before and five seconds after the receipt), and the proof is its reading in that unit |
| SpotTable.UntimelyIff | src/CTraderGate7Proof.cpp:799-866 | a timestamp fresh in no unit is stale if and only if one reading lies nearest to the receipt and before it, and from the future if and only if that reading lies after it; equally near readings prove no unit |
| Gate7Proofs.NormalizeScale5 | src/CTraderGate7Proof.cpp:734-778 | the loops and overflow guards compute the exact rescaling, or nothing when it does not fit |
| Gate7Proofs.ClassifyTimestampDetailed | src/CTraderGate7Proof.cpp:799-866 | ready exactly when one unit qualifies; stale or future exactly when none does and the strictly nearest reading is past or future |
| Gate7Proofs.Decide | src/CTraderGate7Proof.cpp:799-866 | the loop over the four units reaches the verdict its meaning demands |
| Gate7Proofs.GuardsAreExact | src/CTraderGate7Proof.cpp:748-754 | the guards before the multiplication refuse exactly the products that do not fit |
| Gate7Proofs.MatchesXauusd | src/CTraderGate7Proof.cpp:506-529 | the loop accepts XAUUSD in any letter case with at most one slash, and nothing else |
| Gate7Proofs.FindFiboDemo | src/CTraderGate7Proof.cpp:437-464 | the loop counts the matching accounts and remembers the last |
| Gate7Proofs.FindXauusd | src/CTraderGate7Proof.cpp:562-593 | counting and then looking again finds the only candidate |
| QuoteProofRuns.QuoteNeedsEveryStep | src/CTraderGate7Proof.cpp:413-982 | a quote is held exactly when the proof is complete, and then six answers were accepted in order for one account, one symbol and one connection, and the quote is what the last one showed |
| QuoteProofRuns.RunHoldsWhatItNeeds | src/CTraderGate7Proof.cpp:413-1024 | identifiers, metadata and quote are held exactly in the phases that need them |
| QuoteProofRuns.TerminalRunsStayTerminal | src/CTraderGate7Proof.cpp:993-999 | nothing revives an ended proof |
| QuoteProofRuns.CompletedKeepsQuoteIff | src/CTraderGate7Proof.cpp:493-504 | a completed proof keeps its quote under every answer but an account authentication, which discards it |
| QuoteProofRuns.SuccessIsCompletion | src/CTraderGate7Proof.cpp:899-991 | success is reported exactly when the proof completes, unless the caller ends it under that name |
| QuoteProofRuns.NeverCrossedByRounding | src/CTraderGate7Proof.cpp:940-950 | only crossed raw prices are refused as crossed |
| QuoteProofTable.GoldIff | src/CTraderGate7Proof.cpp:506-529 | a name is taken for gold against dollars if and only if it spells XAUUSD in any letter case, with at most one slash anywhere |
| QuoteProofTable.InstrumentIff | src/CTraderGate7Proof.cpp:648-689 | the metadata is accepted if and only if the symbol is on offer under its listed name and its six numbers are given and sound (pip position within digits within twelve, volumes positive, in order and whole steps); the instrument then has just those numbers |
| QuoteProofTable.MovesOnIff | src/CTraderGate7Proof.cpp:413-982 | an answer brings the proof forward if and only if it is the one the proof waits for, heard on its own connection, about its own account and symbol, and selects exactly one; the proof then holds exactly what that answer says |
| QuoteProofTable.WaitsOnIff | src/CTraderGate7Proof.cpp:868-950 | a proof under way waits on if and only if a usable spot lacks a side or its timestamp, and says which |
| QuoteProofTable.EndsIff | src/CTraderGate7Proof.cpp:398-1024 | every other answer ends the proof, forgetting everything but the decision, which is the first check the answer fails; an ended proof takes no answer any more |
| Gate7Proofs.CTraderGate7Proof.AcceptAccountList | src/CTraderGate7Proof.cpp:413-471 | the object moves and answers as specified |
| Gate7Proofs.CTraderGate7Proof.AcceptAccountAuthentication | src/CTraderGate7Proof.cpp:482-504 | the object moves and answers as specified |
| Gate7Proofs.CTraderGate7Proof.AcceptSymbolsList | src/CTraderGate7Proof.cpp:531-598 | the object moves and answers as specified |
| Gate7Proofs.CTraderGate7Proof.AcceptFullSymbol | src/CTraderGate7Proof.cpp:607-693 | the object moves and answers as specified |
| Gate7Proofs.CTraderGate7Proof.AcceptSubscription | src/CTraderGate7Proof.cpp:702-732 | the object moves and answers as specified |
| Gate7Proofs.CTraderGate7Proof.AcceptSpot | src/CTraderGate7Proof.cpp:868-982 | the object moves and answers as specified |
| Gate7Proofs.CTraderGate7Proof.End | src/CTraderGate7Proof.cpp:984-999 | the object ends, or reports that it had ended |
| Base64Url.EncodeShape | src/CTraderOAuthCorrelation.cpp:60-92 | the encoding has the length of unpadded base64 (43 symbols for 32 bytes) and only symbols of the URL-safe alphabet |
| Base64Url.EncodeIsInjective | src/CTraderOAuthCorrelation.cpp:60-92 | different byte strings of one length have different encodings |
| Base64Url.SymbolIsInAlphabet | src/CTraderOAuthCorrelation.cpp:18-19 | each symbol is the character at its value’s place in the alphabet |
| Base64Url.EncodingReadsBack | src/CTraderOAuthCorrelation.cpp:60-92 | read as digits to base 64, an encoding is the number whose digits to base 256 are the bytes, with four zero bits behind it when one byte was left over and two when two were |
| OAuthQuery.QueryAcceptedIff | src/CTraderOAuthCorrelation.cpp:137-217 | a query is accepted exactly when it is one to sixteen distinct well-encoded parameters with a non-empty code and state and no error, not starting with a question mark |
| OAuthTable.SplitIff | src/CTraderOAuthCorrelation.cpp:151-160 | the parts of a query are the texts without ampersands that give it when joined by ampersands |
| OAuthTable.ParameterIff | src/CTraderOAuthCorrelation.cpp:160-171 | a part is a parameter if and only if it is a non-empty name, the first equals sign and a value, both well encoded |
| OAuthTable.EncodingIff | src/CTraderOAuthCorrelation.cpp:94-116 | the encoding of a text is valid if and only if it is plain characters and escapes of a percent sign and two hexadecimal digits |
| OAuthTable.QueryOutcome | src/CTraderOAuthCorrelation.cpp:137-217 | a query is refused for the first part that is malformed, repeated or empty where it must not be, and if there is none for its error, its missing state or its missing code, in that order |
| OAuthGuard.AcceptedIff | src/CTraderOAuthCorrelation.cpp:331-370 | a callback is accepted exactly when it reaches an armed guard in time, at the right place, as an authorization for its own state |
| OAuthGuard.OwnStateIsAccepted | src/CTraderOAuthCorrelation.cpp:331-370 | the guard accepts its own state with any well-encoded code |
| OAuthGuard.OtherEntropyIsRefused | src/CTraderOAuthCorrelation.cpp:331-370 | a state made from other random bytes is never accepted |
| OAuthGuard.AcceptsAtMostOnce | src/CTraderOAuthCorrelation.cpp:331-409 | over any run at most one callback is accepted |
| OAuthGuard.AcceptedCallbackIsOwnAndInTime | src/CTraderOAuthCorrelation.cpp:257-370 | an accepted callback came after an arming in the same run, less than sixty seconds earlier, with the state of that arming |
| OAuthGuard.DoneRunsStayDone | src/CTraderOAuthCorrelation.cpp:402-409 | an ended guard stays ended |
| OAuthTable.ArmIff | src/CTraderOAuthCorrelation.cpp:257-322 | arming succeeds if and only if the guard is new, entropy was had, the listener is bound to the loopback address and port and the clock leaves room; the guard then waits sixty seconds with the encoded entropy as state, and anything else ends it |
| OAuthTable.ConsumeIff | src/CTraderOAuthCorrelation.cpp:331-370 | every callback ends the guard: before arming or outside its sixty seconds for that, and else with the verdict on its origin, place and query |
| OAuthTable.ExpireIff | src/CTraderOAuthCorrelation.cpp:372-400 | a guard that is asked expires at its deadline and not before, and a cancelled guard ends |
| OAuthCorrelation.Base64UrlEncode | src/CTraderOAuthCorrelation.cpp:60-92 | the block loop computes the encoding |
| OAuthCorrelation.CheckEncoding | src/CTraderOAuthCorrelation.cpp:100-116 | the scan accepts exactly the valid encodings |
| OAuthCorrelation.ConstantTimeEqual | src/CTraderOAuthCorrelation.cpp:118-129 | accumulating differences decides equality |
| OAuthCorrelation.ParseQueryString | src/CTraderOAuthCorrelation.cpp:137-217 | the index loop reads the query as specified |
| OAuthCorrelation.CTraderOAuthCorrelationGuard.Arm | src/CTraderOAuthCorrelation.cpp:257-322 | the object arms or refuses as specified |
| OAuthCorrelation.CTraderOAuthCorrelationGuard.Consume | src/CTraderOAuthCorrelation.cpp:331-370 | the object judges a callback as specified, and ends |
| OAuthCorrelation.CTraderOAuthCorrelationGuard.ExpireIfDue | src/CTraderOAuthCorrelation.cpp:372-390 | the object ends at or after its deadline and not before |
| OAuthCorrelation.CTraderOAuthCorrelationGuard.Cancel | src/CTraderOAuthCorrelation.cpp:392-400 | the object ends as specified |

## Left out

- ExactlyOnce.FillsAreBookedExactlyOnce: one gateway with one bound engine and one symbol; fills made by `processPendingOrders`, which bypass a bound gateway, are not part of the runs.
- BrokerAgreement.BrokerAgreesWithStore: the store is not reconciled from the broker in these runs, and callers' keys are fresh texts.
- WebSocketMessages.ReceiverFollowsFrames: the recorded fragment opcode is never read by the source and is not modelled; a continuation without an opening fragment is collected, and a new opening fragment replaces what was collected, as the source does.
- WebSocket.FragmentedMessageDeliveredOnce: describes one message; sequences in which another opening fragment intervenes are covered by `WebSocketMessages.ReceiverFollowsFrames`.
- OrderBookRuns.QuoteIsReported: the bid is within half a tick only while it is in reach of the base price; a spread wider than half the ladder clamps it.
- RingBuffer.SizeIsExactWhenQuiet: a size read while either side publishes may be stale, and nothing is claimed of it.
- StateSerializers.StateSerializer.SaveSnapshot: takes the records of the components; reading them from the running components is left out, and the conversion of drawdowns to doubles is described by `LedgerSnapshot.Recorded` and not computed.
- RiskEngines.RiskEngine.UpdateDiversifiedVaR: the square root is a parameter with its defining property.
- QuoteProofRuns.QuoteNeedsEveryStep: running out of memory, which the source turns into a terminal decision, does not occur in the model.
- Floating-point conversion (`normalize`, `Decimal64::fromDouble`, `toDouble`): depends on the platform's long double.
- Signal handling in `execute` outside entry sizing, the dispatch wiring between engine and gateway, analytics, strategies and trigger orders.
- Pending orders of the ledger (`placePendingOrder`, `evaluatePendingOrders`): only their persistence is modelled.
- Gateway health events, latency faults, live approval and callbacks to external listeners.
- The circuit breakers of the risk engine: the gateway takes the risk decision as an input. `pushEquityReturn` has the same shape as the modelled window.
- Sockets, TLS, timers, REST, metrics, CSV and file writing: foreign calls and wall clock.
- Secure clearing of memory, SHA-256, random number generation and diagnostic texts: not visible in a functional model; random bytes are a parameter.
- Payload allowlists, provider error classification and heartbeat cadence of the quote proof, and the earlier gate of the same shape.
- Moving an authorization guard from one object to another.
- Live data adapter, event loop, regime detector, portfolio allocator, benchmarks: threads and heuristics; only the persisted state of the latter two appears.
- Mutexes: calls on one object do not overlap.
