# Clawmes: delegations, schedulers, bridge and amounts

A Dafny model of the parts of Clawmes that move money or guard it, with proofs of what they keep over
whole runs. `dafny verify dfyconfig.toml` checks all of it.

**Delegations.** `Compiler` turns a spending spec into caveats, each an enforcer with ABI-encoded terms.
`Enforcers` gives every enforcer a meaning from its encoder's description: a ledger per caveat, updated by
each redemption or reverting it. Terms are read back from their text, and a list of redemptions passes all
compiled caveats if and only if it stays within the spec. `Abi` is the codec for Solidity's
head-and-tail encoding; `Encoding`, `Calldata` and `Context` are the encoders on top of it, each with a
reader and a round trip. `Extractors` turns a tool's arguments into an action, or raises; `FillDelegator` is
the placeholder substitution, `RateLimiter` the pruned list of recent attempts, `Delegations` and
`DelegationService` the life of stored records and the entry point that redeems them, and
`RedemptionLimits` what the limiter keeps over their runs. `CompilerRefusals` says which specs are accepted,
`DelegationOutcomes` what becomes of a try and what reaches the chain, and `HexIntegers` is Python's grammar for
hexadecimal integers.

**Schedulers.** `CopyTrader`, `Dca`, `Sniper`, `AutoSell` and `LimitOrder` are the tick functions of the
four schedulers on the values of one record (for limit orders, of the whole book). A run is any sequence
of ticks and commands, with prices, swap results, explorer answers and clocks as inputs of each tick.
`CopyFollow`, `DcaSchedule`, `SniperConfig` and `OrderBook` hold the same records as objects whose methods
update fields in loops; each method is proved to make exactly the step of the functions. `SlidingCap` is
the daily cap that copies and DCA share, `Report` recomputes their spend, `Interval` is the interval
grammar. `CopyRecords`, `DcaEntries`, `SniperWatches` and `LimitTriggers` say what each record, entry, watch and
attempt of a run means.

**Bridge.** `BridgeProtocol` has callers, reader threads and `stop()` as interleaved atomic steps over a
pending map and its lock; `BridgeSafety` proves who may remove an id, set an event and give a caller its
outcome, `BridgeProgress` that no call is lost and each can be finished; `BridgeProcess` has the same updates as
methods of a class.

**Amounts and nonces.** `Decimals` converts human amounts through a decimal context of any precision
(28 digits by default) and its printed text, on `Digits`; `DecimalText` is the grammar of the texts it reads. `ConfirmStore` is the one-time nonce list with
lazy collection.

Amounts of ETH and prices are reals, wei and base units integers. Text is a sequence of characters and
byte strings are sequences of integers below 256. Runs are sequences of events; `Run(events[..i])` is the
state before event `i`.

## What the code does not do

These are claims a reader could make of the code that fail. Each has a concrete family of inputs in the
project, and the condition under which the claim holds.

- The daily caps price history at today's amount. Lowering the per-copy amount or the DCA amount lets a day
  exceed its cap (`CopySpend.LoweringBreaksDailyCap`, `Dca.LoweringBreaksDailyCap`).
- A copy tick that fails on a later wallet keeps the records of the earlier ones without moving the
  watermark, and copies them again (`CopyWatermark.RaiseRepeats`, exactly when: `CopyWatermark.RepeatsIff`).
  The sniper repeats likewise (`Sniper.RaiseRepeats`, `Sniper.RepeatsIff`).
- `/report` prices old DCA runs at the current amount; an edit makes the figure wrong (`Report.EditMisreports`,
  exactly when: `Report.EditReportedIff`).
- `to_base_units` documents that it never rounds up. With more than 28 significant digits it can
  (`Decimals.NinesRoundUp`); `Decimals.NeverRoundsUpIff` says exactly when it does.
- Auto-sell watches of an exhausted config wait while no other config is active (`SniperWatches.IdleTicksStrand`);
  otherwise they close at their first look that meets a threshold (`SniperWatches.WatchClosesIff`).
- Lowering `max_attempts` to the attempts already made lets one more happen (`LimitSafety.LoweringOvershoots`,
  exactly when: `LimitSafety.StepWithinIff`).
- Leaving `call` by an exception other than a broken pipe or OS error leaves its id pending
  (`BridgeSafety.AbortLeaksId`, exactly when: `BridgeSafety.LeftPendingIff`).
- The outcome contract of the executor promises one of executed, error and skip. A token id below zero or an
  amount of 2^256 ends in an exception (`Delegations.TokenIdEndsTry`, exactly when:
  `Delegations.ExactlyOneOutcome`).
- A redemption that saves a copy loaded before a revocation can make the record active again
  (`Delegations.LateSaveRevivesIff`).
- Filling the delegator placeholder also rewrites the zero amount of an allowance revocation
  (`FillDelegator.ZeroAllowanceIsFilled`).
- With clocks read out of order, collection in the nonce store is visible (`ConfirmStore.OutOfOrderDiffers`,
  exactly when: `ConfirmStore.DiffersIff`).

## Model

| member | source | states |
|---|---|---|
| Compiler.CompilePreservesMeaning | clawmes/delegation/compiler.py:87-233 | for every accepted spec, a chronological list of redemptions passes every compiled caveat, read from its terms, if and only if it keeps every limit of the spec: value per call, running or per-period native and token spend, number of calls, targets, time windows |
| Compiler.ExpiryIsEarliestBound | clawmes/delegation/compiler.py:171-225 | the expiry is the smallest `executeBefore` that can be read from the emitted terms, lies before the year 10000, and is absent exactly when none bounds the time |
| Compiler.LateBoundsRefused | clawmes/delegation/compiler.py:223-225 | with every caveat encoded, a spec is refused for its date exactly when its terms bound the time and no bound is before the year 10000 |
| Compiler.EmptyOnlyWhenUnrestricted | clawmes/delegation/compiler.py:205-210 | an accepted spec has no caveats exactly when it states no limit and allows unrestricted delegations |
| Compiler.PolicyEnforced | clawmes/delegation/compiler.py:236-265 | the spec seeded from a policy, compiled, admits exactly the redemptions within the policy's per-action amount and its calls within one hour |
| Compiler.CompileSpec | clawmes/delegation/compiler.py:87-233 | the branch-by-branch appending compiler yields the caveats, the expiry and the errors that the function the theorems are about yields |
| Compiler.AppendErc20 | clawmes/delegation/compiler.py:146-169 | the loop over token limits appends one caveat for each, or fails with the first failure |
| CompilerRefusals.AcceptedIff | clawmes/delegation/compiler.py:87-233 | a spec is accepted exactly when the chain is supported, every cap positive and in range, every token and target an address, every time within 128 bits, something is restricted or need not be, and the expiry can be printed |
| Enforcers.LedgersExact | clawmes/delegation/encoding.py:72-124 | an enforcer's per-caveat ledger never reverts exactly on the histories its documentation allows: sums over everything, sums per period slot, counts, windows, targets |
| Enforcers.PeriodicLedger | clawmes/delegation/encoding.py:82-109 | a periodic enforcer that only remembers its current slot accepts exactly the histories whose every slot is within the cap |
| Enforcers.PeriodicSpan | clawmes/delegation/encoding.py:82-109 | a periodic cap bounds what any interval as long as the period can spend by twice the cap |
| Abi.DecodeEncodeAll | clawmes/delegation/encoding.py:122-156 | tuples of words, byte strings, arrays and tuples, nested in any way, decode from their head-and-tail encoding whatever follows it |
| Encoding.ReadsUintTerms | clawmes/delegation/encoding.py:72-79 | one-integer terms read back as that integer |
| Encoding.ReadsNativePeriod | clawmes/delegation/encoding.py:82-90 | native period terms read back as allowance, start and period |
| Encoding.ReadsPackedAmount | clawmes/delegation/encoding.py:93-99 | the 52-byte packed token terms read back as the token and the amount |
| Encoding.ReadsTokenPeriod | clawmes/delegation/encoding.py:102-109 | token period terms read back as token, allowance, start and period |
| Encoding.ReadsTimestamp | clawmes/delegation/encoding.py:117-119 | the two packed 128-bit times read back |
| Encoding.ReadsTargets | clawmes/delegation/encoding.py:122-124 | the dynamic address array of the target list reads back as the addresses |
| Calldata.EncodersAgree | clawmes/lib/abi.py:39-106 | the byte-based and the text-based transfer and approve encoders fail on the same texts and integers and otherwise produce the same calldata |
| Calldata.TransferRoundTrip | clawmes/delegation/encoding.py:222-235 | transfer and approve calldata decode to the address and amount, and are not mistaken for each other |
| Calldata.TransferFromRoundTrip | clawmes/delegation/encoding.py:238-245 | transferFrom calldata decodes to sender, receiver and token id |
| Calldata.ExecutionRoundTrip | clawmes/delegation/encoding.py:130-132 | a packed execution decodes to target, value and call data |
| Context.ContextRoundTrip | clawmes/delegation/encoding.py:135-156 | a permission context decodes to the whole delegation chain, leaf first, with caveats, salts and signatures |
| Context.RedeemRoundTrip | clawmes/delegation/encoding.py:192-198 | the arguments of `redeemDelegations` decode to the context, the mode and the execution |
| FillDelegator.FillKeepsLength | clawmes/delegation/executor.py:235-241 | filling keeps the calldata's length, and changes nothing exactly when no 64 digits in a row are zero |
| FillDelegator.FillsTransferFrom | clawmes/delegation/executor.py:235-241 | filling `transferFrom(0, to, id)` gives `transferFrom(delegator, to, id)` exactly when the last 128 digits contain no run of 64 zeros |
| FillDelegator.ZeroAllowanceIsFilled | clawmes/delegation/executor.py:137-148 | the calldata of an allowance revocation is always changed by filling |
| Extractors.RaisesIff | clawmes/delegation/executor.py:76-166 | an extractor raises exactly when it got as far as the encoder and an address has other than forty hexadecimal digits, or the token id or the amount is below zero or at least 2^256 |
| Extractors.FoundIff | clawmes/delegation/executor.py:109-166 | for each of the three tools, an action is found exactly for the listed arguments, and nothing for all others on which the encoder does not raise |
| Extractors.EtherOnlyWhenNamed | clawmes/delegation/executor.py:129-134 | an action with a value exists only for a send to an address whose token is empty or, in lower case, eth or native |
| Extractors.OtherTokenGivesNothing | clawmes/delegation/executor.py:129-134 | any other token that is no address gives nothing |
| Extractors.FoundMakesCall | clawmes/delegation/executor.py:109-166 | the action of an extractor, its calldata read back, is the transfer, the revocation or the token move that the arguments ask for; a plain transfer names ether as its token |
| Extractors.AddressesEncode | clawmes/delegation/executor.py:76-90 | forty hexadecimal digits are an address to the extractors, and of what they take the encoders accept nothing else |
| Extractors.UnderscoreRaises | clawmes/delegation/executor.py:76-90 | an underscore between digits is taken by the extractors and refused by the encoders |
| HexIntegers.ReadsOnly | clawmes/delegation/executor.py:85-90 | what reads as a hexadecimal integer has a digit, and only digits, separators, signs, an x and space |
| RedemptionLimits.AtMostThreePerMinute | clawmes/delegation/executor.py:191-336 | over every run of the store and the executor, attempts of one user and tool recorded less than 60 seconds apart, without a success before the last, are at most three |
| RedemptionLimits.AttemptWithinMax | clawmes/delegation/executor.py:191-336 | the next attempt, whether or not it succeeds, together with those since the last success puts at most three in any half-open window of 60 seconds |
| RedemptionLimits.LimitedIffThree | clawmes/delegation/executor.py:191-196 | at every try of a run the limiter refuses exactly when three attempts since the last success are less than 60 seconds old |
| RateLimiter.PrunedAnswersAsFull | clawmes/delegation/executor.py:191-208 | the pruned list answers as the full history since the last success would |
| RateLimiter.Limiter.RateLimited | clawmes/delegation/executor.py:191-196 | the answer, the pruned list it leaves for the key, and the rest of the table as it was |
| RateLimiter.Limiter.RecordAttempt | clawmes/delegation/executor.py:199-204 | the key's list is pruned and extended, the rest of the table as it was |
| RateLimiter.Limiter.ClearAttempts | clawmes/delegation/executor.py:207-208 | a success empties the key's list only |
| Delegations.ExactlyOneOutcome | clawmes/delegation/executor.py:253-336 | a try has an outcome if and only if it stops before the extraction or the encoder accepts what was extracted, and then exactly one of executed, error and skip; without one and on a skip nothing was attempted or changed; what is sent covers tool and chain, is signed or active and not past its expiry |
| DelegationOutcomes.OutcomeWhenApplies | clawmes/delegation/executor.py:253-336 | once a delegation applies the try skips only for a delegator without code; it is an error when expired, throttled or not going through, executed otherwise; the action is sent exactly after a simulation that passed |
| DelegationOutcomes.SkipsWhenNoneApplies | clawmes/delegation/executor.py:253-281 | when none applies and nothing raises, the try skips and changes nothing |
| DelegationOutcomes.OtherTokenSkips | clawmes/delegation/executor.py:129-134 | a transfer of a token that is neither an address nor ether is left to the handler |
| DelegationOutcomes.MatchIsFirstCover | clawmes/delegation/executor.py:218-232 | the match is the first record that is signed or active and covers tool and chain |
| DelegationOutcomes.SentAsAsked | clawmes/delegation/executor.py:274-290 | what reaches the chain is the ether, token or token move as asked, with the delegator filled in, unless its calldata has 64 zeros in a row; a revocation of an allowance never reaches it as such |
| DelegationOutcomes.TryStores | clawmes/delegation/executor.py:292-304 | a try marks an expired record expired and a signed one it redeemed active, and writes nothing else |
| DelegationOutcomes.CommandStores | clawmes/delegation/service.py:152-340 | storing, deleting, revoking and refreshing change the record with that id only; a refresh follows the chain's answer |
| Delegations.TokenIdEndsTry | clawmes/delegation/executor.py:151-165 | a token id below zero ends a covered try with an exception |
| Delegations.RevokedForever | clawmes/delegation/service.py:298-340 | after a revocation, across tries, refreshes, expiry and further revocations, the id stays revoked until it is stored anew |
| Delegations.SentWereRedeemable | clawmes/delegation/service.py:196-250 | over every run, each record handed to the chain was signed or active at that moment |
| Delegations.NothingSentAfterRevoke | clawmes/delegation/service.py:196-250 | after a revocation nothing is sent for that id until it is stored anew |
| Delegations.LateSaveRevivesIff | clawmes/delegation/service.py:246-249 | a copy saved after a revocation revives the id exactly when that copy was still marked signed |
| DelegationService.Service.TryDelegation | clawmes/delegation/executor.py:253-336 | the entry point makes that step: the outcome or none, the store, what is sent, and the whole table of the limiter |
| DelegationService.Service.Redeem | clawmes/delegation/service.py:196-250 | what a redemption sends, what it saves and whether it succeeds |
| DelegationService.Service.RefreshById | clawmes/delegation/service.py:324-340 | refresh leaves revoked records and unknown hashes alone, keeps the status on an unreadable answer, and otherwise follows the chain |
| DelegationService.Service.RevokeById | clawmes/delegation/service.py:298-321 | revocation marks the stored record revoked |
| DelegationService.Service.SaveRecord | clawmes/delegation/store.py:116-127 | saving replaces the record with the same id and keeps one record per id |
| DelegationService.Service.FindMatching | clawmes/delegation/executor.py:222-232 | the first redeemable record whose scope and chain cover the action |
| BridgeSafety.RunInvariant | clawmes/bridges/process.py:122-253 | the ownership invariant in every interleaving: pending ids are open, a removed id is held by exactly the thread that removed it |
| BridgeSafety.RemovedAtMostOnce | clawmes/bridges/process.py:122-182 | each request id leaves the pending map at most once |
| BridgeSafety.SignalledAtMostOnce | clawmes/bridges/process.py:138-253 | each event is set at most once, and is set exactly when some step set it |
| BridgeSafety.SignalledByRemover | clawmes/bridges/process.py:138-253 | an event is set only by the thread that removed the id, or by `stop()` inside the critical section that removes it |
| BridgeSafety.ReturnsOwnResponse | clawmes/bridges/process.py:150-182 | a call that returns normally returns the result of the response with its own id that removed it |
| BridgeSafety.RaisesOwnError | clawmes/bridges/process.py:150-182 | an error raised from the slot is the one put there by whoever removed the id |
| BridgeSafety.LateResponseReachesNobody | clawmes/bridges/process.py:236-240 | a response to an id that was taken, or never registered, changes nothing |
| BridgeSafety.RaisedLeavesNothing | clawmes/bridges/process.py:166-178 | a caller that raised a timeout or a write failure has left nothing in the map |
| BridgeSafety.LeftPendingIff | clawmes/bridges/process.py:150-182 | in every interleaving, whenever the lock is free, the id of a caller that has left is still in the map if and only if it left by an exception other than a broken pipe or OS error and nobody has taken the id |
| BridgeSafety.AbortLeaksId | clawmes/bridges/process.py:160-171 | there is such a caller |
| BridgeProgress.NoCallLost | clawmes/bridges/process.py:122-253 | in every interleaving a call that waits unsignalled is in the map or held by a reader that is on its way to set its event |
| BridgeProgress.ReplyReachesCaller | clawmes/bridges/process.py:150-253 | a response to a waiting call, read by any idle reader, makes the call return or raise what it carries |
| BridgeProgress.CrashReachesCallers | clawmes/bridges/process.py:204-216 | the end of the output, unless the bridge is being stopped, fails every pending call, and each caller raises the crash |
| BridgeProgress.StoppingReaderEnds | clawmes/bridges/process.py:204-207 | while the bridge is being stopped the reader ends and leaves the pending calls to `stop()` |
| BridgeProgress.StopReachesCallers | clawmes/bridges/process.py:122-143 | stopping fails every pending call, each caller raises it, and the map is left empty |
| BridgeProgress.GivesUp | clawmes/bridges/process.py:166-178 | a call whose time runs out or whose write fails takes its id out and raises that |
| BridgeProcess.Bridge.HandlePayload | clawmes/bridges/process.py:228-253 | popping, filling and setting on the objects are the protocol's receive, fill and signal |
| BridgeProcess.Bridge.RegisterCall | clawmes/bridges/process.py:155-158 | registering puts a fresh unset slot under the id |
| BridgeProcess.Bridge.Pop | clawmes/bridges/process.py:236-237 | popping takes the id out and yields its slot, or nothing |
| BridgeProcess.Bridge.FailAll | clawmes/bridges/process.py:211-216 | the loop over taken calls fails and sets each of them and touches no other |
| BridgeProcess.Bridge.ReaderExit | clawmes/bridges/process.py:204-216 | the reader's last act takes all pending calls and fails them, unless `stop()` is under way |
| BridgeProcess.Bridge.Stop | clawmes/bridges/process.py:122-143 | `stop()` fails every pending call and empties the map, or only sets its flag when nothing runs |
| BridgeProcess.DrainIsFailAll | clawmes/bridges/process.py:207-216 | draining one call at a time, as the steps do, is failing all of them |
| SlidingCap.CheckKeepsCap | clawmes/commands/copy.py:855-863 | passing the estimate check keeps every closed day within the cap, as long as no run in the last day paid more than the current amount |
| SlidingCap.CountIsSince | clawmes/commands/copy.py:750-766 | the estimate counts exactly the successful records at or after the cutoff |
| CopySpend.DailyCapHolds | clawmes/commands/copy.py:750-793 | as long as a cap that is set covers the days so far, no check looks back on a record that paid more than the current amount, and records are stamped no earlier than their check, every closed window of 86400 seconds has at most the cap in force actually spent, in every reachable state |
| CopySpend.DailyCapUnlowered | clawmes/commands/copy.py:750-793 | so over every run that lowers neither the amount nor the cap |
| CopySpend.LoweringBreaksDailyCap | clawmes/commands/copy.py:750-766 | for any two amounts, lowering from one to the other breaks some cap |
| CopySpend.SpendConserved | clawmes/commands/copy.py:670-688 | the running total is the sum over recorded successful buys in every reachable state, whatever was edited |
| CopySpend.LifetimeCapHolds | clawmes/commands/copy.py:845-853 | the total stays within the lifetime cap while no edit sets the cap below what is already spent |
| CopyRecords.TickRecords | clawmes/commands/copy.py:610-717 | each record a tick adds is of a transfer one of its batches carried, and is what it calls for: noted if blocklisted, else a buy if incoming, a sell if outgoing and inverted, with the amount and outcome that settings, caps, balance and swap give |
| CopyRecords.NeverBuysBlocked | clawmes/commands/copy.py:654-668 | over every run, every record obeys the blocklist in force when it was added: no blocked token is bought or sold |
| CopyRecords.AmountMeans | clawmes/commands/copy.py:769-793 | the amount is the percentage of the watched transaction's value up to the fixed amount, or the fixed amount |
| CopyRecords.BuyMeans | clawmes/commands/copy.py:830-896 | a buy is refused by the lifetime cap, then by the daily estimate, and else comes to what its swap comes to |
| CopyRecords.TickPausesIff | clawmes/commands/copy.py:739-747 | a tick that records something and does not raise pauses the follow exactly on a streak of failures |
| CopyRecords.WatchedMeans | clawmes/commands/copy.py:720-736 | the watched wallets are the primary one, first, and the extra ones, each once |
| CopyWatermark.ActedOnAtMostOnce | clawmes/commands/copy.py:593-717 | over runs of harmless ticks, no pair of watched wallet and transfer has two records; a tick is harmless when no fetch raises, or no transfer in a batch before the first that raises leaves a record |
| CopyWatermark.StepOnceIff | clawmes/commands/copy.py:593-717 | an event keeps each pair once, at or below the watermark, if and only if it is harmless |
| CopyWatermark.RepeatsIff | clawmes/commands/copy.py:593-717 | a tick in which a fetch raises, made twice, acts on some transfer twice if and only if a transfer before that fetch leaves a record |
| CopyWatermark.WatermarkMonotone | clawmes/commands/copy.py:628-715 | no event lowers the watermark or drops a record |
| CopyWatermark.HandledExactlyOnce | clawmes/commands/copy.py:610-717 | with untruncated batches and one chain snapshot per tick, every eligible incoming transfer above the starting block has exactly one record |
| CopyWatermark.RaiseRepeats | clawmes/commands/copy.py:593-607 | a failing second wallet makes a transfer of the first be acted on twice |
| CopyFollow.Following.Process | clawmes/commands/copy.py:610-717 | the nested loops over wallets and transfers make exactly the function's step, also when a fetch raises |
| CopyFollow.Following.SpentInLastDay | clawmes/commands/copy.py:750-766 | the loop totals the current amount over successful records since the cutoff |
| CopyFollow.Following.Execute | clawmes/commands/copy.py:830-896 | lifetime cap, daily cap, wallet and swap decide the status in that order |
| CopyFollow.Following.AllWatchedWallets | clawmes/commands/copy.py:720-736 | the primary wallet and the extras, once each, in order |
| CopyFollow.Following.MaybeAutoPause | clawmes/commands/copy.py:739-747 | pauses exactly when the last records are all failures |
| CopyFollow.Following.Command | clawmes/commands/copy.py:466-566 | commands change one field and refuse values out of range |
| CopyFollow.RunDue | clawmes/commands/copy.py:593-607 | every active follow makes its own tick, an exception ends only its own, and the state is saved exactly when some follow printed a line |
| CopyFollow.DiskIsTicked | clawmes/commands/copy.py:605-606 | what is on disk after a tick is, follow by follow, a tick of the run model |
| Report.CopyFigureIsTotals | clawmes/commands/report.py:142-177 | the all-time copy figure is the sum of the sender's running totals in every reachable state |
| Report.SummarizeCopy | clawmes/commands/report.py:142-177 | the loops sum the recorded amounts of the sender's successful records in the window |
| Report.SummarizeDca | clawmes/commands/report.py:108-139 | the loops price the sender's successful runs in the window at the current amounts |
| Report.WindowIsPaidWithin | clawmes/commands/report.py:142-177 | a windowed copy figure is what successful records from the cutoff on spent |
| Report.WindowIsCount | clawmes/commands/report.py:108-139 | a windowed schedule figure is today's amount for each successful run from the cutoff on |
| Report.DcaFigureIsTotals | clawmes/commands/report.py:108-139 | the all-time DCA figure is the sum of the sender's running totals, for schedules no event of whose runs misprices |
| Report.DcaFigureIff | clawmes/commands/report.py:120-128 | the all-time figure of a schedule is its running total all along a run if and only if no event of the run sets another amount after a successful run |
| Report.EditReportedIff | clawmes/commands/report.py:120-128 | after an edit in a reachable state whose figure is right, it is right if and only if the amount is the same or no run has succeeded |
| Report.UneditedFigure | clawmes/commands/report.py:120-128 | a schedule whose amount was never edited is reported right |
| Report.EditMisreports | clawmes/commands/report.py:120-128 | one edit to another amount, after a successful run, makes the figure wrong |
| Dca.DailyCapHolds | clawmes/commands/dca.py:847-899 | as long as a cap that is set covers the days so far and no successful run of the day before a check paid more than the current amount, every closed day is within the cap in force, in every reachable state |
| Dca.DailyCapUnlowered | clawmes/commands/dca.py:847-899 | so over every run that lowers neither the amount nor the cap |
| Dca.LoweringBreaksDailyCap | clawmes/commands/dca.py:847-866 | for any two amounts, lowering from one to the other breaks some cap |
| Dca.SpendConserved | clawmes/commands/dca.py:819-825 | the running total is what the successful runs paid, whatever was edited |
| Dca.LifetimeCapHolds | clawmes/commands/dca.py:879-888 | the total stays within the lifetime cap while no edit sets the cap below it |
| Dca.AtMostOncePerMinute | clawmes/commands/dca.py:777-832 | whatever is paused, skipped or edited, entries of a schedule are at least the interval floor of 60 seconds apart |
| DcaEntries.TickMeans | clawmes/commands/dca.py:777-832 | a tick adds one entry to a schedule that is active and due, with the outcome that condition, caps and swap give, moves its next run one interval on, and pauses it exactly when a run completes a streak of failures |
| DcaEntries.BlockedIff | clawmes/commands/dca.py:795-811 | over every run an entry is blocked exactly when the schedule is conditional and its condition did not hold at its tick; nothing is ever bought with the condition false |
| DcaSchedule.Recurring.RunOnce | clawmes/commands/dca.py:790-828 | one due schedule: a blocked condition only advances it, a run is recorded, accounted and may pause it |
| DcaSchedule.Recurring.SpentInLastDay | clawmes/commands/dca.py:847-866 | the loop totals the current amount over successful runs since the cutoff |
| DcaSchedule.Recurring.Submit | clawmes/commands/dca.py:869-934 | lifetime cap, daily cap, wallet and swap decide the outcome in that order |
| DcaSchedule.Recurring.Command | clawmes/commands/dca.py:533-654 | pause, resume, skip and edits change one field and refuse values out of range |
| DcaSchedule.RunDue | clawmes/commands/dca.py:777-832 | exactly the schedules due at the tick's clock make their tick, each on its own, and their number is returned |
| Interval.ParseMeansGrammar | clawmes/commands/dca.py:79-95 | the parser accepts exactly the texts of the pattern whose value is in range, with that value |
| Interval.ParseInterval | clawmes/commands/dca.py:79-95 | only multiples of 60 between 60 and 31536000 are accepted |
| Interval.IntervalRoundTrip | clawmes/commands/dca.py:98-110 | an accepted interval, printed with its largest unit, parses back to itself |
| Decimals.RoundTripIff | clawmes/lib/decimals.py:16-60 | showing base units and reading them back gives the same number exactly when it is a number of at most the context's digits with zeros behind it |
| Decimals.RoundTripShort | clawmes/lib/decimals.py:16-60 | every amount below 10 to the precision survives for every number of decimals; beyond the exponent limit both directions raise |
| Decimals.DefaultRoundTrip | clawmes/lib/decimals.py:16-60 | in the default context every amount below 10^28 survives for every number of decimals up to 999999 |
| Decimals.RoundTripRounds | clawmes/lib/decimals.py:16-60 | for any amount the round trip is one rounding to the context's significant digits |
| Decimals.ToBaseUnitsFloors | clawmes/lib/decimals.py:16-34 | a readable amount of at most the context's significant digits converts to the floor of the exact product |
| Decimals.NeverRoundsUpIff | clawmes/lib/decimals.py:16-34 | what a text converts to exceeds the floor of the exact product exactly when rounding its digits carries up to a whole number of base units |
| Decimals.NinesRoundUp | clawmes/lib/decimals.py:16-34 | the text of one nine more than the context keeps converts to the next power of ten |
| Decimals.RoundsHalfEven | clawmes/lib/decimals.py:32-33 | a number with more digits than the context keeps becomes the nearest one with that many, half to even |
| Decimals.ShownIsTrimmed | clawmes/lib/decimals.py:56-60 | what is shown ends neither in a zero of its fraction nor in a point |
| DecimalText.ReadsIff | clawmes/lib/decimals.py:29 | a text reads as an amount exactly when it matches the grammar of sign, digits, point and exponent, and then as the number it denotes |
| DecimalText.RefusedIff | clawmes/lib/decimals.py:29-31 | exactly the texts outside the grammar are malformed, and exactly amounts below zero refused |
| Digits.PrintedValue | clawmes/lib/decimals.py:56-60 | printed decimal digits read back, without leading zeros |
| AutoSell.ClosesAtFirstHit | clawmes/commands/sniper.py:704-776 | a watch closes at the first price that meets a threshold stated in multiples of the buy price and the peak, for the reason of highest priority, with one sell |
| AutoSell.OpenUntilHit | clawmes/commands/sniper.py:732-756 | until then it is open, nothing was sold, and the high-water mark is the maximum of the buy price and all positive prices read |
| AutoSell.PeakIsMaximum | clawmes/commands/sniper.py:742-745 | the peak is an upper bound of those prices and one of them |
| AutoSell.SellsAtMostOnce | clawmes/commands/sniper.py:732-776 | over any sequence of looks at most one sell is submitted for a watch |
| Sniper.BuysAreOkSnipes | clawmes/commands/sniper.py:514-569 | the counter is the number of successful snipes in every reachable state |
| Sniper.StepWithinLimit | clawmes/commands/sniper.py:572-654 | every snipe of an event was submitted while the successful snipes so far were below the limit in force; at the limit none is |
| Sniper.NeverAboveLimits | clawmes/commands/sniper.py:514-654 | over a run no more buys are made than the highest limit ever in force |
| Sniper.AttemptedAtMostOnce | clawmes/commands/sniper.py:540-654 | no launch is attempted twice over harmless ticks with fixed timestamps not after the tick's clock; a tick is harmless when no launch before the first entry that raises is fired |
| Sniper.RaisedIff | clawmes/commands/sniper.py:572-654 | a pass raises exactly when a fresh entry that raises is met before the buys among the earlier entries reach the limit |
| Sniper.StepOnceIff | clawmes/commands/sniper.py:540-654 | an event keeps each launch attempted once, by the clock, if and only if it is harmless |
| Sniper.RepeatsIff | clawmes/commands/sniper.py:540-654 | a raising tick made twice attempts some launch twice if and only if one was fired before the entry that raises |
| Sniper.RaiseRepeats | clawmes/commands/sniper.py:544-551 | a launch fired before one that raises is attempted again by the next tick |
| Sniper.StepKeepsClosed | clawmes/commands/sniper.py:732-734 | a closed watch is never changed by any event, and no watch disappears |
| SniperWatches.WatchClosesIff | clawmes/commands/sniper.py:556-776 | over every run, whatever the config's status, a watch is closed exactly when one of the looks that saved ticks gave it met a threshold, by the first such look, with its price, peak and reason; until then its mark is the maximum of the prices of its looks |
| SniperWatches.UnsavedMissesNothing | clawmes/commands/sniper.py:556-567 | a walk that is not saved read no price that meets a threshold |
| SniperWatches.IdleTicksStrand | clawmes/commands/sniper.py:515-518 | while no config is active, ticks leave an exhausted or paused config and its open watches alone |
| SniperWatches.PassObeysFilters | clawmes/commands/sniper.py:572-654 | every attempt of a pass is of a launch that is new, young enough and let through by every filter set, and every watch it registers is of one that was bought, at the price read |
| SniperWatches.WantedIsAttempted | clawmes/commands/sniper.py:572-654 | such a launch, met below the limit and before an exception, is attempted, and watched at its price if bought |
| SniperConfig.Sniping.Process | clawmes/commands/sniper.py:572-654 | the loop with its early stop, skips and exceptions makes the function's pass over the feed |
| SniperConfig.Sniping.EvaluateAutoSell | clawmes/commands/sniper.py:704-776 | the loop updates every watch in place by one look and counts the sells that went through |
| SniperConfig.Sniping.Turn | clawmes/commands/sniper.py:544-554 | the clock advances and a full config is exhausted, unless processing raised |
| SniperConfig.Sniping.Command | clawmes/commands/sniper.py:379-489 | pause, resume and edits, values out of range refused |
| LimitSafety.FilledIffLastOk | clawmes/commands/limit_order.py:493-534 | every order of every run has at most one successful attempt, its last, and is filled exactly when it has one |
| LimitSafety.AttemptsBounded | clawmes/commands/limit_order.py:522-525 | as long as no edit of `max_attempts` leaves an order without room, no order has more attempts than it allows |
| LimitSafety.StepWithinIff | clawmes/commands/limit_order.py:458-525 | an event keeps every order within its limit, with an attempt left unless it is over, if and only if it is not an edit to a limit at or below the attempts of a live order, or below those of a finished one |
| LimitSafety.LoweringOvershoots | clawmes/commands/limit_order.py:458-525 | an order that failed once, edited down to one attempt, makes a second in the same run |
| LimitSafety.TerminalForever | clawmes/commands/limit_order.py:373-404 | once filled or failed, whatever follows, an order never gains an attempt or changes status |
| LimitSafety.BooksAreSound | clawmes/commands/limit_order.py:493-599 | every order ever created has no child or exactly two, has two exactly when it carries a bracket and filled at a positive price, and parents have no parents |
| LimitSafety.AtMostThreePerAdd | clawmes/commands/limit_order.py:493-599 | after k adds at most 3k orders have ever existed |
| LimitSafety.SpawnsTwo | clawmes/commands/limit_order.py:537-599 | a filled bracketed buy spawns two plain sells of its amount for its sender: the first triggered exactly by a gain of the take-profit percentage on the fill price, the second exactly by a loss of the stop-loss percentage, and no single price triggers both |
| LimitSafety.ChildrenCarryNoBracket | clawmes/commands/limit_order.py:563-599 | in every run children are sells without a bracket and brackets belong to buys |
| LimitTriggers.TickMeans | clawmes/commands/limit_order.py:493-534 | in a tick exactly the active orders whose price can be read on their waiting side are tried, each gains that attempt and its status, and the children of those that fill are in the book |
| LimitTriggers.AttemptedOnItsSide | clawmes/commands/limit_order.py:600-618 | over every run a buy is tried only at or below its threshold, a sell that is no child only at or above it |
| LimitTriggers.CommandMeans | clawmes/commands/limit_order.py:373-468 | a command changes the one order with that id and sender, as it says, and no other |
| LimitTriggers.CancelMeans | clawmes/commands/limit_order.py:407-419 | cancelling keeps exactly the orders it is not about |
| LimitTriggers.AddMeans | clawmes/commands/limit_order.py:239-324 | an order in range is listed last as given, buys waiting below and sells above; any other is refused |
| OrderBook.Orders.RunDue | clawmes/commands/limit_order.py:493-534 | the loop over the list updates each order in place and appends the children of the tick at the end |
| OrderBook.Orders.Visit | clawmes/commands/limit_order.py:498-527 | one order's turn and the children it returns |
| OrderBook.Orders.Store | clawmes/commands/limit_order.py:239-324 | an order out of range is refused, any other appended as active with the next id |
| OrderBook.Orders.PauseOrder | clawmes/commands/limit_order.py:373-388 | pausing is refused on terminal orders |
| OrderBook.Orders.ResumeOrder | clawmes/commands/limit_order.py:391-404 | only a paused order resumes |
| OrderBook.Orders.EditOrder | clawmes/commands/limit_order.py:428-468 | an edit changes one field of the first matching order, or is refused |
| OrderBook.Orders.CancelOrder | clawmes/commands/limit_order.py:407-419 | cancelling removes exactly the sender's order with that id |
| ConfirmStore.GrantedIff | clawmes/policy/confirm_store.py:44-66 | a consume is granted exactly when its nonce was issued for the same fingerprint, less than the time to live ago, and was not granted before |
| ConfirmStore.GrantedMeans | clawmes/policy/confirm_store.py:44-69 | whatever the clocks, a consume is granted exactly when its nonce and action were issued, it is in time, and since then nothing asked in time and no clock was past the deadline |
| ConfirmStore.GrantedAtMostOnce | clawmes/policy/confirm_store.py:56-66 | no nonce is granted twice, whatever the clocks |
| ConfirmStore.CollectionInvisible | clawmes/policy/confirm_store.py:68-69 | under a forward clock collecting expired entries never changes an answer compared with a store that keeps everything, fresh nonces or not |
| ConfirmStore.DiffersIff | clawmes/policy/confirm_store.py:44-69 | with fresh nonces an answer depends on collection if and only if the consume is the first in time for its nonce and action and a clock since the issue was past the deadline |
| ConfirmStore.OutOfOrderDiffers | clawmes/policy/confirm_store.py:56-69 | with clocks out of order it does |
| ConfirmStore.Store.IssueNonce | clawmes/policy/confirm_store.py:44-54 | collects, then appends the nonce with its expiry |
| ConfirmStore.Store.ConsumeNonce | clawmes/policy/confirm_store.py:56-66 | collects, then pops the first entry for this nonce and action, or refuses |

## Left out

- On-chain enforcers: the contracts are not part of the repository. Their meaning is taken from the
  descriptions of their terms, with a ledger for each caveat; a deployed enforcer keeps its storage by
  delegation, so two caveats with the same enforcer could share it.
- Enforcers are an enumeration instead of contract addresses; the caveat's `args` are always empty.
- Checksummed addresses: which mixed-case texts the ABI library takes is a parameter of the encoders.
- Addresses are ASCII text: digits of other alphabets, which `int(text, 16)` also reads, are not modelled, nor is
  white space inside `bytes.fromhex` input, which never makes twenty bytes of forty characters.
- Salt derivation, EIP-712 typed data, keccak selectors of the manager calls, signatures, key storage,
  nonces and gas of transactions; calldata of disable, hash and status reads.
- Encodings are assumed shorter than 2 to the 256 bytes, which no memory can hold.
- The `mapped`, `unmapped` and `warnings` texts of a compilation, and all rendered text.
- Serialization of records to JSON and the file system: a save puts the record into the listed sequence;
  the position of a new file in the directory listing is an input. Quarantine of unreadable files.
- The decimals cache of the extractors (its answer is an input of a try), arguments that are not text, and tools
  registered with `register_extractor`.
- Tries of one user and tool are sequential: two threads could both be told that they are not limited before either
  records its attempt.
- Writes of the copy, DCA, sniper and order files by several processes at once; commands and ticks are sequential.
- Exceptions inside one transfer, swap or price read of a copy tick other than a raising fetch; swap
  failures are outcomes.
- Binary floating point: amounts, prices and percentages are reals.
- Explorer paging and the block a new follow starts from (an input), slippage, token gating and tier checks.
- Unparsable timestamps in history files; clocks are numbers, and the clock is read once per window in `/report`.
- The sniper's tick is modelled for one config at a time, with what other configs printed as an input;
  regular expressions on symbols are an input of each launch, addresses are lower-case.
- A raised `_process_config` is modelled at the point where a launch's fields are read.
- Uniqueness of order, schedule and request ids and of nonces drawn at random is assumed; orders take consecutive ids.
- The `precision` argument of `from_base_units` and `format_human`; amounts not finite, with underscores or
  surrounding white space; subnormal results, which truncate to zero either way.
- The interval pattern outside ASCII, and numerals of more than 4300 digits, on which Python's `int` raises.
- The bridge's child process, stderr and notification queue; `start()` is a reader thread appearing.
- Plans, discovery, launch, claim and alert commands, the MCP server, hooks and the command line.
