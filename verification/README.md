# HLiquity SDK: verified model of the off-chain protocol arithmetic and the store

HLiquity's SDK computes off-chain what the protocol will do with troves, fees, redemptions and
redistributions, and keeps a store of chain state whose derived values and cached reads must agree with
the chain. This project models that core in Dafny and proves what it promises:

- `Decimals.dfy`, `DecimalText.dfy`: fixed-point decimals of eight places, `pow`, the string parser and
  the printers. The doc comment at packages/lib-base/src/Decimal.ts:27 speaks of 18 digits; the code uses
  eight, and so does the model.
- `Troves.dfy`, `Redistribution.dfy`: troves, the changes between them, borrowing fees, collateral ratios
  and pending redistributions.
- `FeeSchedule.dfy`, `Redemption.dfy`: the decaying base rate and the redemption estimate.
- `StoreState.dfy`, `StoreDerivation.dfy`, `Listeners.dfy`, `LiquityStores.dfy`: the store, what it derives,
  its notifications and its listeners.
- `BlockPolledStores.dfy`: the fetch protocol that feeds the store, as steps that may come in any order.
- `ReadCache.dfy`: reads of the chain and reads through the store.
- `Outcomes.dfy`, `Numbers.dfy`: results, options and integer facts.

A decimal is a natural number of units of 10^-8. What the library throws is an `Err` result. Objects in the
store carry an identity beside their contents, so that strict equality is equality of the pair. Time,
listener behaviour, contract answers and fetch results are parameters.

Some expectations are false of the code; each has a lemma with the failing inputs and the exact condition
under which it holds:

- A decimal string with a positive exponent and more than eight fraction digits is cut before it is scaled
  (`ParserCutsBeforeScaling`, `ParserSound`).
- Flooring a redistribution can swap two troves of equal ratio, through the collateral or through the debt
  (`OrderFlips`). Up to one unit the order is always kept (`OrderPreserved`); exactly, it is kept for all
  troves with two given stakes if and only if their shares are floored evenly (`OrderKeptExactly`).
- A listener subscribed before the load is not told what the load brought (`EarlySubscriberMissesLoad`).
  One subscribed after it rebuilds the state as long as it stays registered (`ListenerReplays`) and no update
  throws; what an update took over before it threw is announced exactly where the next one changes it again
  (`ReplayAfterThrow`), so that a new price can stay unannounced (`SilentPrice`).
- A refresh keeps the old block tag under new values, so a cached read at that tag is right exactly when the
  refresh brought that block's value (`RefreshedReads`). A run ends coherent with the chain if and only if
  the base state is one of the current tag's block (`RunsAreCoherent`); a refresh of arbitrary contents is
  harmless if and only if no tag was applied before (`RefreshCoherentExactly`).
- An update takes over its base state before deriving from it. The store is left consistent if and only if the
  merged state has its shape and a fee time recent enough for `pow` (`UpdateConsistentExactly`); one fee time
  too far back breaks any loaded store (`OutdatedFeesBreak`). Over runs, the store is consistent exactly when
  the last result that reached it could be derived from (`RunSafe`), so that the next one that can repairs it.
- Without any known address the cache answers where the direct read throws (`UserReadsAgree`,
  `FrontendReadsAgree`); without a user the cached token addresses are the text `0x`
  (`TokenAddressReadsAgree`); without an address an allowance is cached for the user but read directly for
  the frontend (`AllowanceDefaultsAgree`). Each lemma states the agreement as an equivalence.

Verify with `dafny verify dfyconfig.toml`.

## Model

| member | source | states |
|---|---|---|
| Decimals.ComputePow | packages/lib-base/src/Decimal.ts:244-268 | the square-and-multiply loop returns the value the error bounds below are about, and rejects exponents outside 0..2^32-1 |
| Decimals.RoundedMulError | packages/lib-base/src/Decimal.ts:17 | one product is rounded to the nearest unit, upwards from the middle |
| Decimals.PowError | packages/lib-base/src/Decimal.ts:244-268 | for every base of at most one and n >= 1, pow is within (n-1)/2 units of the exact power and never above the base |
| Decimals.PowErrorAbove | packages/lib-base/src/Decimal.ts:244-268 | for every base from one on and n >= 1, pow is within (n-1)/2 units times the (n-1)-th power of the base plus one unit |
| Decimals.PowDefined | packages/lib-base/src/Decimal.ts:244-252 | exactly the exponents from 0 to 2^32-1 are accepted, and the zeroth power is one |
| Decimals.PowWhole | packages/lib-base/src/Decimal.ts:244-268 | whole-number bases of any size are raised exactly |
| Decimals.PowMonotone | packages/lib-base/src/Decimal.ts:244-268 | pow is monotone in its base for every exponent |
| DecimalText.ParserAccepts | packages/lib-base/src/Decimal.ts:71-74 | a string is accepted exactly when it renders a literal of the format with a non-empty coefficient |
| DecimalText.ParserSound | packages/lib-base/src/Decimal.ts:71-115 | the result is the floor of the denoted value in units if and only if the exponent shifts no non-zero digit back in past the eighth place |
| DecimalText.FlooredUnitsIsFloor | packages/lib-base/src/Decimal.ts:13 | the denoted value of a literal as a quotient of powers of ten |
| DecimalText.ParserCutsBeforeScaling | packages/lib-base/src/Decimal.ts:92-108 | 1.123456789e1 is not read as the floor of its value |
| DecimalText.PrintParse | packages/lib-base/src/Decimal.ts:135-179 | parsing the printed form returns the decimal if and only if it is not infinity |
| DecimalText.PrintCanonical | packages/lib-base/src/Decimal.ts:135-146 | the printed form has no leading zeros and, unless whole, at most eight fraction digits of which the last is not zero |
| DecimalText.PrintParseRounded | packages/lib-base/src/Decimal.ts:148-169 | printing with a precision rounds half up to a multiple of the last place; from eight places on it is exact |
| DecimalText.PrintedShape | packages/lib-base/src/Decimal.ts:153-169 | with a precision there are exactly as many fraction digits as asked for, up to eight, and no point for none; a negative one is rejected |
| Troves.FeeCharged | packages/lib-base/src/Trove.ts:391-392 | applying the fee adds the rate's part of the borrow, rounded down |
| Troves.UnapplyFeeIsLeast | packages/lib-base/src/Trove.ts:391-395 | unapplying the fee gives the least borrow whose fee-laden debt reaches the increase |
| Troves.UnapplyApply | packages/lib-base/src/Trove.ts:391-395 | unapplying undoes applying exactly, for every rate |
| Troves.ApplyUnapply | packages/lib-base/src/Trove.ts:391-395 | applying after unapplying overshoots by less than 1 + rate units, by none without a fee and by at most one for rates up to one |
| Troves.ApplyWhatChanged | packages/lib-base/src/Trove.ts:546-672 | applying the change from a to b onto a gives b: collateral exactly, debt exactly without a fee and at most one unit more for rates up to one, over every kind of change |
| Troves.ChangeBalances | packages/lib-base/src/Trove.ts:567-605 | what a change moves is the difference between the troves: collateral and repayment to the unit, less the reserve at a closure, and the least borrow that reaches the increase |
| Troves.ApplyAccepts | packages/lib-base/src/Trove.ts:614-672 | a change from an empty trove applies to empty troves alone, one to an empty trove to open troves alone, any other to every trove |
| Troves.AdjustmentHasNoZeros | packages/lib-base/src/Trove.ts:594-604 | the change between two open troves is a well-formed adjustment without zero entries, which marks exactly what became zero |
| Troves.ZeroingsCarryOver | packages/lib-base/src/Trove.ts:643-670 | a change to a debt-free or collateral-free trove zeroes the same part of any trove it is applied to, and a closure empties any open one |
| Troves.CreateCharges | packages/lib-base/src/Trove.ts:680-685 | a created trove holds the deposit and owes reserve, borrow and the fee on it; both parameters and no others are accepted |
| Troves.AdjustCharges | packages/lib-base/src/Trove.ts:708-713 | an adjustment moves collateral and debt by its parameters, with the fee on a borrow, and never below zero; contradictory or empty ones are rejected |
| Troves.RecreateCreate | packages/lib-base/src/Trove.ts:680-699 | recreating a created trove returns its parameters, except for the all-zero creation without a reserve |
| Troves.AdjustToAdjust | packages/lib-base/src/Trove.ts:708-723 | adjusting and asking for the adjustment back returns the non-zero parameters if and only if the trove is open, stays open and is not overdrawn |
| Troves.InversesReject | packages/lib-base/src/Trove.ts:691-723 | parameters are given back exactly for a trove that can be created, and for two different open troves |
| Troves.RatioMeaning | packages/lib-base/src/Trove.ts:441-448 | both ratios are quotients rounded down, infinite without debt |
| Troves.RatioBelowByProduct | packages/lib-base/src/Trove.ts:446-480 | being below a ratio limit, without division |
| Troves.SystemRatio | packages/lib-base/src/Trove.ts:446-498 | a total below a limit has a member below it; if all members are below, so is the total |
| Troves.NominalOrder | packages/lib-base/src/Trove.ts:441-448 | a strictly greater nominal ratio is at least as great a ratio at every price |
| Redistribution.ShareHeld | packages/lib-base/src/Trove.ts:819-831 | after redistribution a trove holds its amounts and the exact share of its stake since the snapshot, rounded down |
| Redistribution.OrderPreserved | packages/lib-base/src/Trove.ts:819-831 | redistribution preserves the order of collateral ratios up to one rounding unit |
| Redistribution.OrderKeptExactly | packages/lib-base/src/Trove.ts:819-831 | for two given stakes, the exact order of every ordered pair of troves is kept if and only if flooring gives the second trove no more collateral and no less debt per stake |
| Redistribution.ExactSharesFloorEvenly | packages/lib-base/src/Trove.ts:508-536 | so it is when the first trove's collateral share and the second one's debt share need no rounding |
| Redistribution.OrderFlips | packages/lib-base/src/Trove.ts:819-831 | troves of equal ratio that swap through the collateral alone, and through the debt alone |
| Redistribution.SharesConserved | packages/lib-base/src/Trove.ts:508-536 | the shares of n troves sum to at most the exact total, short by fewer than n units |
| Redistribution.CheckpointsLose | packages/lib-base/src/Trove.ts:819-831 | through k checkpoints at most k-1 units per component are lost against one application |
| FeeSchedule.BaseRateEnvelope | packages/lib-base/src/Fees.ts:83-93 | n whole minutes after the last fee operation, none before it, the base rate does not exceed the stored one and is within (n+1)/2 units of exact geometric decay |
| FeeSchedule.BorrowingRateEnvelope | packages/lib-base/src/Fees.ts:116-123 | zero in recovery; otherwise minimum plus base rate, capped, within its bounds |
| FeeSchedule.RedemptionRateEnvelope | packages/lib-base/src/Fees.ts:154-163 | between its floor and one, and non-decreasing in the redeemed fraction |
| FeeSchedule.RedemptionRateSlope | packages/lib-base/src/Fees.ts:154-163 | it exceeds floor and base by the fraction over beta, rounded down, and is one exactly when these add up to one |
| Redemption.GetRedemptionDetails | packages/lib-base/src/redemptionDetails.ts:34-82 | the loop computes the estimate of its payments, including its error and empty outcomes |
| Redemption.PaymentsConserve | packages/lib-base/src/redemptionDetails.ts:34-62 | the payments sum to the request or all usable debt, and only the last touched trove is paid in part |
| Redemption.EstimateIsFair | packages/lib-base/src/redemptionDetails.ts:34-66 | receipt and fee of the estimate are worth at most what is redeemed, short by fewer units than troves touched |
| Redemption.BoughtPerTrove | packages/lib-base/src/redemptionDetails.ts:43-60 | what is bought is the sum of each payment over the price, each rounded down |
| Redemption.EstimateGrows | packages/lib-base/src/redemptionDetails.ts:34-66 | a larger request redeems no less and yields no less HBAR before the fee |
| Redemption.BoughtMonotone | packages/lib-base/src/redemptionDetails.ts:37-62 | redeeming more never buys less |
| Redemption.LaterTrovesDoNotMatter | packages/lib-base/src/redemptionDetails.ts:34-82 | the whole estimate is independent of troves after the first prefix that covers the request |
| Redemption.EstimateConserves | packages/lib-base/src/redemptionDetails.ts:34-82 | redeemed is the lesser of request and usable debt; fee and receipt together are what the payments buy |
| Redemption.EstimateThrows | packages/lib-base/src/redemptionDetails.ts:37-66 | the estimate throws exactly when it reaches a trove below the reserve or the fee exceeds what is bought |
| Redemption.EstimateSlippage | packages/lib-base/src/redemptionDetails.ts:34-82 | the estimate has no details exactly when more is received per redeemed HCHF than the system holds per HCHF; else its slippage is the missing part, rounded up |
| Redemption.SlippageMeaning | packages/lib-base/src/redemptionDetails.ts:67-74 | the same for any redeemed and bought amounts |
| StoreState.ReduceContents | packages/lib-base/src/HLiquityStore.ts:372-608 | reduction takes over the contents of the update's defined entries and nothing else |
| StoreState.UpdateLeaves | packages/lib-base/src/HLiquityStore.ts:717-742 | an update of a loaded store trips no assert and throws only what the derivation throws; it merges exactly the update, and leaves derived equal to the derivation of base exactly if it did not throw |
| StoreState.LoadLeaves | packages/lib-base/src/HLiquityStore.ts:701-714 | a load of an unloaded store throws only what the derivation throws, leaving it unloaded but for its base state; else it shows what was loaded |
| StoreState.LoadedState | packages/lib-base/src/HLiquityStore.ts:270-330 | a loaded store shows its base, derived and extra state in full |
| StoreState.ChangeReplays | packages/lib-base/src/HLiquityStore.ts:215-220 | a change record turns the old state into the new one |
| StoreState.ChangesAreReal | packages/lib-base/src/HLiquityStore.ts:372-397 | every listed field really changed value, except the two compared by identity |
| StoreState.BaseChangesExactly | packages/lib-base/src/HLiquityStore.ts:372-608 | a base field is announced, with the very value brought, exactly when the update brings another value or, for the two allowances, another object |
| StoreState.RepeatIsQuiet | packages/lib-base/src/HLiquityStore.ts:717-742 | repeating an update yields an empty change |
| StoreState.ReplayGivesState | packages/lib-base/src/HLiquityStore.ts:717-742 | folding all announced changes over the state before them gives the state after every update |
| StoreState.ReplayAfterThrow | packages/lib-base/src/HLiquityStore.ts:717-742 | what an update took over before throwing reaches listeners exactly where the next update changes it again |
| StoreDerivation.SilentPrice | packages/lib-base/src/HLiquityStore.ts:717-742 | a price that came with outdated fees is in the state after the next update and was announced by none |
| StoreState.LoadEndsQuietly | packages/lib-base/src/HLiquityStore.ts:701-714 | the update that ends a load announces no change |
| StoreState.EarlySubscriberMissesLoad | packages/lib-base/src/HLiquityStore.ts:684-714 | a listener subscribed before the load is told of no change by it, although the state differs |
| StoreDerivation.DeriveDefined | packages/lib-base/src/HLiquityStore.ts:610-629 | the derivation yields the derived fields and throws only for a fee time too far back or an ill-shaped state |
| StoreDerivation.DerivedMeaning | packages/lib-base/src/HLiquityStore.ts:610-629 | the trove with its share, fees in recovery exactly below the critical ratio, and the flag exactly for a riskiest trove below the minimum, debt-free ones included |
| StoreDerivation.DerivedRates | packages/lib-base/src/HLiquityStore.ts:610-629 | both rates are the stored rate, decayed from the last fee operation to the latest block, on top of the minimum and capped; no borrowing rate in recovery |
| Listeners.RoundIsFair | packages/lib-base/src/HLiquityStore.ts:664-676 | a round calls exactly the listeners registered at its start and not removed before their turn, once each, in order, and none added meanwhile |
| Listeners.PerformResult | packages/lib-base/src/HLiquityStore.ts:684-698 | subscribing and unsubscribing keep registrations distinct; every subscription is one, and a listener, old or new, is left unless removed |
| LiquityStores.RegisteredReceivesAll | packages/lib-base/src/HLiquityStore.ts:664-742 | a listener still registered after any updates, whatever all listeners did to the registry meanwhile, received every announced change in order |
| LiquityStores.UnremovedStays | packages/lib-base/src/HLiquityStore.ts:664-698 | a listener that no listener removes is still registered after any updates |
| LiquityStores.ListenerReplays | packages/lib-base/src/HLiquityStore.ts:664-742 | a listener that stays registered rebuilds the state after the last update from the one it was welcomed with, when no update throws |
| LiquityStores.LiquityStore.Subscribe | packages/lib-base/src/HLiquityStore.ts:684-698 | the listener is registered last under a new identity, told the current state with no change, and what it does then affects only the registrations it removes |
| LiquityStores.LiquityStore.Unsubscribe | packages/lib-base/src/HLiquityStore.ts:695-697 | exactly that registration is removed |
| LiquityStores.LiquityStore.Notify | packages/lib-base/src/HLiquityStore.ts:664-676 | the loop over a copy performs one round |
| StoreDerivation.UpdateConsistentExactly | packages/lib-base/src/HLiquityStore.ts:717-733 | the store an update leaves behind, by a throw or not, is consistent exactly when the merged state can be derived from |
| StoreDerivation.OutdatedFeesBreak | packages/lib-base/src/HLiquityStore.ts:717-733 | an update with a fee time one minute too far back leaves any loaded store inconsistent |
| LiquityStores.LiquityStore.DoUpdate | packages/lib-base/src/HLiquityStore.ts:717-742 | the new state, the notification and the round of an update, its assert, and the state left behind by a derivation that throws |
| LiquityStores.LiquityStore.DoLoad | packages/lib-base/src/HLiquityStore.ts:701-714 | the new state, the load callback, the empty change and the round of a load, its assert, and the state left behind by a derivation that throws |
| BlockPolledStores.RunSafe | packages/lib-ethers/src/BlockPolledLiquityStore.ts:263-313 | in every interleaving, whatever the fetches bring, there is one load before any update and the tag is the last applied one; the derived state is that of the base state, which is the last applied result, exactly when the last result that reached the store could be derived from |
| BlockPolledStores.DerivableRunsSettle | packages/lib-ethers/src/BlockPolledLiquityStore.ts:263-313 | so it is in every run whose results can all be derived from |
| BlockPolledStores.EveryInterleavingIsSafe | packages/lib-ethers/src/BlockPolledLiquityStore.ts:263-313 | the same from the start with the store's own derivation; no assert of load or update fires at any point, for a completion throws only what deriving from its result throws |
| BlockPolledStores.CompletionOutcome | packages/lib-ethers/src/BlockPolledLiquityStore.ts:264-313 | the first completion loads whichever fetch it is, an overtaken initial fetch is dropped, any other result replaces the contents and an untagged one keeps the old tag; a result that cannot be derived from replaces the base contents alone |
| BlockPolledStores.FetchesReachStore | packages/lib-ethers/src/BlockPolledLiquityStore.ts:263-313 | after a tick the next block of an active session is fetched and shown under its tag once its result is there; a refresh and, before the load, a start show theirs |
| BlockPolledStores.RunThrottled | packages/lib-ethers/src/BlockPolledLiquityStore.ts:270-281 | over any run there are at most as many block fetches as timer ticks |
| BlockPolledStores.StoppedStaysStopped | packages/lib-ethers/src/BlockPolledLiquityStore.ts:292-295 | a stopped session starts no further block fetch |
| BlockPolledStores.StopStops | packages/lib-ethers/src/BlockPolledLiquityStore.ts:292-295 | stopping a session changes nothing else, and after any further run its blocks start no fetch |
| BlockPolledStores.StartStarts | packages/lib-ethers/src/BlockPolledLiquityStore.ts:263-281 | starting fetches at once and opens a session that ignores blocks before its first tick, fetches the first after it, and waits for the next tick |
| BlockPolledStores.FetchesConserved | packages/lib-ethers/src/BlockPolledLiquityStore.ts:263-313 | over any run every fetch started is under way, or was completed or failed exactly once |
| BlockPolledStores.BlockPolledStore.DoStart | packages/lib-ethers/src/BlockPolledLiquityStore.ts:263-273 | starting fetches at once and adds a session whose flag is down: the object follows the protocol's start step and stays safe |
| BlockPolledStores.BlockPolledStore.OnTick | packages/lib-ethers/src/BlockPolledLiquityStore.ts:271-273 | a tick raises the flag of an active session and nothing else |
| BlockPolledStores.BlockPolledStore.OnBlock | packages/lib-ethers/src/BlockPolledLiquityStore.ts:275-281 | a block lowers a raised flag of an active session and starts a fetch of that block, or does nothing |
| BlockPolledStores.BlockPolledStore.DoStop | packages/lib-ethers/src/BlockPolledLiquityStore.ts:292-295 | stopping deactivates the session and leaves fetches under way alone |
| BlockPolledStores.BlockPolledStore.DoRefresh | packages/lib-ethers/src/BlockPolledLiquityStore.ts:298-300 | a refresh starts an untagged fetch and leaves the store alone |
| BlockPolledStores.BlockPolledStore.OnFetched | packages/lib-ethers/src/BlockPolledLiquityStore.ts:264-313 | a completion loads, updates, throws half way or is dropped as the protocol step says, and the object stays sound |
| ReadCache.GlobalReadsAgree | packages/lib-ethers/src/ReadableEthersLiquity.ts:641-721 | cached reads without an address equal the direct ones at every block |
| ReadCache.TokenAddressReadsAgree | packages/lib-ethers/src/ReadableEthersLiquity.ts:729-739 | cached token addresses agree on every chain exactly unless hit without a user |
| ReadCache.FeeReadsAgree | packages/lib-ethers/src/ReadableEthersLiquity.ts:795-799 | cached fees are the block's fees in the block's own mode |
| ReadCache.UserReadsAgree | packages/lib-ethers/src/ReadableEthersLiquity.ts:649-654 | cached reads about any address agree, exactly unless no address is known |
| ReadCache.FrontendReadsAgree | packages/lib-ethers/src/ReadableEthersLiquity.ts:656-661 | the frontend's status agrees, exactly unless no address is known |
| ReadCache.TroveReadsAgree | packages/lib-base/src/_CachedReadableLiquity.ts:74-81 | a trove combined from two cached or direct reads is the direct trove, exactly unless no address is known |
| ReadCache.ListReadsAgree | packages/lib-base/src/_CachedReadableLiquity.ts:203-217 | trove lists equal the direct ones for all parameters, rejected ones included |
| ReadCache.ListingMeaning | packages/lib-ethers/src/ReadableEthersLiquity.ts:442-475 | a listing is a page of all troves in descending order or of their reverse, each with its share unless asked for without; bad parameters are rejected |
| ReadCache.FlagTellsOfAnyTrove | packages/lib-ethers/src/BlockPolledLiquityStore.ts:96-110 | the flag derived from what is fetched at a block tells whether any trove of the sorted list is below the minimum ratio |
| ReadCache.AllowanceReads | packages/lib-ethers/src/ReadableEthersLiquity.ts:826-842 | allowances agree for a given address; without one the cache answers for the user |
| ReadCache.AllowanceDefaultsAgree | packages/lib-ethers/src/ReadableEthersLiquity.ts:550-594 | on a hit without an address, cached and direct allowances agree on every chain exactly when user and frontend are one known address |
| ReadCache.HitsNeedNoChain | packages/lib-ethers/src/ReadableEthersLiquity.ts:641-661 | on a hit the answers are the same whatever the chain holds |
| ReadCache.DirectTroveMeaning | packages/lib-ethers/src/ReadableEthersLiquity.ts:193-233 | a direct trove read holds what the contracts say with its share if open, else nothing, about the given address or the user's |
| ReadCache.OwnFrontendFetched | packages/lib-ethers/src/BlockPolledLiquityStore.ts:209 | the own frontend fetched is the frontend read at the user's address |
| ReadCache.NobodyHasNothing | packages/lib-ethers/src/BlockPolledLiquityStore.ts:215-250 | without a user, what is fetched for one amounts to nothing |
| ReadCache.BlockRates | packages/lib-ethers/src/ReadableEthersLiquity.ts:478-510 | the rates derived from a block are its base rate, decayed by the minutes of its seconds, on top of the minimum and capped |
| ReadCache.BlockRedemptionRate | packages/lib-ethers/src/ReadableEthersLiquity.ts:478-500 | redeeming a fraction raises the redemption rate of a block's fees by the fraction over beta, up to one |
| ReadCache.CoherentExactly | packages/lib-ethers/src/BlockPolledLiquityStore.ts:316-324 | a store is coherent with the chain exactly when its base state is one of the current tag's block |
| ReadCache.RunsAreCoherent | packages/lib-ethers/src/BlockPolledLiquityStore.ts:263-324 | every run, with refreshes anywhere, completions in any order and derivations that throw, ends coherent under that condition and no other; it holds if the last result to reach the store could be derived from and the last applied one is tagged or none is |
| ReadCache.TaggedExactly | packages/lib-ethers/src/BlockPolledLiquityStore.ts:275-313 | every update after the load carries its tag exactly when no refresh updates the loaded store; refreshes may load it, fail or throw |
| ReadCache.CacheRefinesChain | packages/lib-base/src/_CachedReadableLiquity.ts:57-221 | after any such run, cached reads of every kind at any block give the direct answers, for every known address; a run without refreshes of the loaded store is one |
| ReadCache.UntaggedReads | packages/lib-ethers/src/ReadableEthersLiquity.ts:641-647 | a read without a block always hits and shows the last applied result, or before the load the defaults |
| ReadCache.RefreshedReads | packages/lib-ethers/src/BlockPolledLiquityStore.ts:316-324 | after a refresh under a tag, a cached read at that tag is right exactly when the refresh brought that block's value |
| ReadCache.RefreshCoherentExactly | packages/lib-ethers/src/BlockPolledLiquityStore.ts:298-324 | a loaded store is coherent after a refresh of arbitrary contents exactly when no tag was applied before |

## Left out

- Listeners.RoundIsFair: takes a listener's turn as the finite list of subscriptions and removals it makes, including those of listeners it subscribes; listeners that throw or update the store again during a round are not modelled.
- StoreState.ReplayGivesState: covers updates that do not re-enter the store from a listener; for one that throws see `ReplayAfterThrow`.
- ReadCache.CacheRefinesChain: covers reads with a block tag; a read without one has no block to be compared with and is the subject of `UntaggedReads`.
- Redistribution.CheckpointsLose: keeps the stake fixed; how the contracts recompute stakes is not part of this model.
- Logging, the unused update timeout and the promise plumbing of fetches: no effect on the modelled state.
- Answers of single contract calls, the remaining liquidity mining reward among them: opaque values of a block.
- `prettify`, `shorten`, `Difference`, `Percent`: display only; the slippage is kept as a ratio.
- `Decimal.from` on JavaScript numbers, and non-integer exponents or precisions: the model starts from strings and integers.
- Unknown keys in transaction parameters: the four known ones are modelled.
- `StabilityDeposit` and `HLQTStake` changes, `generateTrials`: differences of single amounts and a count of hint trials, on which neither troves nor the store depend.
- The contracts themselves, transaction sending, receipts, deployment and the web frontend.
