# Verification of the StakeBasket front end and backend algorithms

A Dafny model of the self-contained algorithms of StakeBasket (a TypeScript front end with a Hono
backend), with proofs of what they keep over every run and every input. `dafny verify dfyconfig.toml`
checks the whole project.

| file | models |
|---|---|
| `RequestLimiter.dfy`, `RequestLimiterRuns.dfy`, `RequestLimiterWaiting.dfy` | the global request limiter as a scheduler: queue, three slots, 200 ms spacing, wake-ups that exist only as pending timers |
| `RateLimit.dfy`, `RateLimitBounds.dfy` | the fixed-window rate limiter, the counter table all its instances share, and what a limit is worth over an interval, alone and beside shorter windows |
| `DualStaking.dfy`, `DualStakingFigures.dfy`, `DualStakingSplits.dfy` | tiers, ratio bonus, auto-calculation and deposit validation of dual staking; what they come to in figures; what splitting a deposit does to its bonus |
| `Redemption.dfy` | pro-rata redemption of basket shares, and whether the contract can pay |
| `TransactionErrors.dfy`, `TransactionRetry.dfy` | the ordered error classifier, and the bounded retry built on it |
| `CoreApi.dfy` | the Core API response cache under concurrent calls |
| `TransactionHistory.dfy` | selection of the newest local-chain transactions |
| `WithdrawFlow.dfy` | the two-step withdrawal with late continuations and stale closures |
| `Faucet.dfy` | the faucet cooldown |
| `Text.dfy`, `Wrappers.dfy`, `RealFacts.dfy` | ASCII lower case, an option type, one fact about reals |

How the model is built:

- Code that runs without yielding is one atomic step; everything between two steps (timers, awaited
  calls, renders) may interleave in any order. Each stateful object is a class with the program's own
  fields. Its methods state their whole new state as a step function, and the theorems are about every
  run of those step functions. What the runtime keeps (pending timers, calls in flight, logs of what
  was started, admitted or sent) is ghost.
- Clocks are parameters and do not run backwards. Timers never fire early; only
  `BoundedResponse` and `BoundedWaiting` bound how late they may be, by a parameter.
- JavaScript numbers are idealised as reals, wei as natural numbers. `Math.log10`, `JSON.stringify`
  and `parseEther` of a computed number are parameters: any function that is non-negative at 1 and
  monotone above, any injective function, and any function off by less than one wei.

What the proofs found where the program and its own texts differ:

- "3 requests per 5 minutes" (backend/src/routes/faucet.ts:265) does not bound five minutes. All limiters
  share one table, so that balance queries, whose windows last a minute, keep opening windows that faucet
  requests then use. `FaucetLimitIsThirteen`: five minutes see at most thirteen requests of one client
  through the faucet's limiter, and a trace of the two routes gets them. `SharedBound` and
  `SharedBoundIsReached` say the same for any two limiters, `SharedLimitKeptExactlyWhen` when a limit is
  kept, and `SlidingBound` and `SlidingBoundIsReached` what a limiter alone lets through.
- Splitting a deposit can pay: a part at the optimal ratio may earn more than the whole. For deposits that
  earn nothing `SomeSplitPaysExactlyWhen` says exactly when; no split exceeds what `PartsEarnAtMostCap` and
  `NoSplitPays` say.
- Overlapping faucet handlers for one address can both pass the check. That is the only way to get two
  grants within the cooldown; see `GrantsAreSpacedExactlyWhen`.
- In the withdrawal flow, a continuation of an abandoned attempt redeems whatever amount is pending when
  its delay ends, or none, and its rejection ends the newer attempt: `DelayedRedemptionExactlyWhen`,
  `FlowEndsExactlyWhen` and the runs listed beside them.
- `calculateRedemptionAmount` expects ether strings, but its callers pass supply and pools in wei
  (src/hooks/useApiBasedRedemption.ts:114-121). The amounts come out the same; the guard against
  redeeming more than the supply lets up to 10^18 times the supply pass. `RescalingDisarmsTheGuard` says
  exactly when, and `CallersAreHardlyGuarded` gives an input.
- Two markers listed as permanent failures, "transaction failed" and "call reverted", never make an
  error permanent, because an earlier class takes them. `PermanentExactlyWhen` says what does.
- Auto-calculating the Base tier can produce a deposit that validation refuses; see
  `BaseAutoValidation`.
- The repository's README gives Base a 5% bonus and per-tier minimums for CORE and BTC. The code gives
  Base no bonus and enforces only 10 CORE, 0.001 BTC and the USD threshold. The model follows the code.
- The comment at src/hooks/useTransactionHistory.ts:138 says sort, then limit. The code limits first.
  `CutBeforeSortIsRight` shows why that is still right.

## Model

| member | source | states |
|---|---|---|
| RequestLimiter.Limiter.AddRequest | src/utils/requestLimiter.ts:12-24 | queues the closure last and runs one scheduling pass; the new state is the machine's Add step |
| RequestLimiter.Limiter.ProcessQueue | src/utils/requestLimiter.ts:26-43 | up to the await: no free slot or no work changes nothing, too early re-arms a timer for the moment the delay is over, otherwise the head of the queue starts |
| RequestLimiter.Limiter.TimerCallback | src/utils/requestLimiter.ts:35-35 | a due timer is consumed and one scheduling pass runs |
| RequestLimiter.Limiter.SettlePromise | src/utils/requestLimiter.ts:14-21 | the caller's promise takes the outcome of its own request; the slot is still held |
| RequestLimiter.Limiter.Finally | src/utils/requestLimiter.ts:49-53 | the slot is freed and a timer armed, whatever the outcome was |
| RequestLimiter.StepKeepsInv | src/utils/requestLimiter.ts:12-54 | every step keeps the inductive invariant: accounting of every request, enough pending timers due soon enough, spaced start log |
| RequestLimiterRuns.StartsExactly | src/utils/requestLimiter.ts:26-53 | a pass starts the head of the queue, at its second reading of the clock, if and only if fewer than 3 slots are in use, a request waits and the last start is at least 200 ms old; nothing else starts a request, only a release frees a slot |
| RequestLimiterRuns.TimersExactly | src/utils/requestLimiter.ts:33-53 | a pass that comes too early arms one timer for 200 ms after the last start, a release one for 200 ms from then; nothing else arms one, and only its own callback uses one up |
| RequestLimiterRuns.NoLostWakeUp | src/utils/requestLimiter.ts:26-54 | in every reachable state pending timers >= min(free slots, queued requests), even if requests hang |
| RequestLimiterRuns.FifoAndConserved | src/utils/requestLimiter.ts:12-43 | started then queued tickets are the submitted ones in order; submitted = queued + running + settled; activeRequests counts the slots in use and stays within 0..3 |
| RequestLimiterRuns.SettlesAtMostOnce | src/utils/requestLimiter.ts:13-21 | over any run each promise settles at most once, finally, with its own request's outcome, and only if it was added |
| RequestLimiterRuns.OutcomesDoNotMatter | src/utils/requestLimiter.ts:39-53 | replacing outcomes anywhere in a run leaves it legal and changes nothing but the values delivered: failures free slots as successes do |
| RequestLimiterRuns.RateBound | src/utils/requestLimiter.ts:31-43 | the j-th start is at least (j - i) * 200 ms after the i-th; any interval of length L has at most L / 200 + 1 starts |
| RequestLimiterWaiting.BoundedResponse | src/utils/requestLimiter.ts:31-54 | if no timer is more than d overdue, a free slot and a non-empty queue mean that the head of the queue starts within 200 ms + d, whatever else happens |
| RequestLimiterWaiting.BoundedWaiting | src/utils/requestLimiter.ts:26-54 | if moreover no request holds its slot longer than h, the request at position q of the queue is the next but q to start, within (q + 1) * (h + 200 ms + d), from every reachable state and whatever else is added |
| RequestLimiterRuns.DrainsInBoundedSteps | src/utils/requestLimiter.ts:26-54 | without additions every run from a reachable state is finite, with an explicit bound on its length |
| RequestLimiterRuns.DrainsCompletely | src/utils/requestLimiter.ts:26-54 | a reachable state in which only an addition is possible has an empty queue, no active request, and every submitted promise settled |
| RateLimit.RateLimits.Handle | backend/src/middleware/auth.ts:80-101 | decides on the client's counter object, creating it or incrementing it in place; no other client's counter changes |
| RateLimitBounds.SlidingBound | backend/src/middleware/auth.ts:78-101 | for any trace and any mix of limiters with windows >= w, limiters of maximum <= m admit a client in a closed interval of length L = k * (w + 1) + r, r <= w, at most m * (k + 1) times if r = 0 and m * (k + 2) - 1 times otherwise |
| RateLimitBounds.SlidingBoundIsReached | backend/src/middleware/auth.ts:88-99 | for every m >= 1, every w and every length there is a trace of the one limiter (m, w) that reaches the bound |
| RateLimitBounds.LimitKeptExactlyWhen | backend/src/middleware/auth.ts:78-101 | with all windows >= w and all limiters of maximum <= m counted together, at most m admissions in any interval of length L if and only if L = 0, or m = 1 and L <= w |
| RateLimitBounds.SharedBound | backend/src/middleware/auth.ts:78-101 | if limiters of maximum <= m have windows >= own and all others have windows >= w, an interval of length L <= own sees at most m + (m - 1) * ceil(L / (w + 1)) admissions of a client through the former |
| RateLimitBounds.SharedBoundIsReached | backend/src/middleware/auth.ts:78-99 | for every two limiters (m, own) and (other, w) with other > m and every L <= own there is a trace of just these two that reaches this bound |
| RateLimitBounds.SharedLimitKeptExactlyWhen | backend/src/middleware/auth.ts:78-101 | for w <= own and L <= own: m admissions are never exceeded if and only if m = 1 or L = 0, and 2m - 1 never if and only if m = 1 or L <= w + 1 |
| RateLimitBounds.FaucetLimitIsThirteen | backend/src/routes/faucet.ts:207-265 | over all traces of the two deployed limiters, (10, 60000) and (3, 300000), no client gets more than thirteen requests through the latter in 300,000 ms, and one trace gets thirteen |
| RateLimit.TableIsFaithful | backend/src/middleware/auth.ts:88-98 | a client's entry is exactly its admissions since the opening of its current window, and that window's end, both read off the trace |
| RateLimit.RefusedExactlyWhenUsedUp | backend/src/middleware/auth.ts:88-96 | a request is refused if and only if its client's window is still open and the client was admitted at least maxRequests times since it opened |
| RateLimit.ClientsAreIsolated | backend/src/middleware/auth.ts:82-98 | replaying only one client's requests gives the same decisions and the same entry for it |
| DualStaking.TierIsMonotone | src/hooks/useDualStakingTiers.ts:24-51 | adding CORE or BTC never lowers the tier or its bonus cap |
| DualStakingFigures.TierExactly | src/hooks/useDualStakingTiers.ts:24-51 | for each tier, in figures, exactly which amounts and values it is for |
| DualStaking.BonusWithinCap | src/hooks/useDualStakingTiers.ts:53-72 | the bonus lies in [0, cap of the tier] for every input |
| DualStaking.OptimalRatioGetsCap | src/hooks/useDualStakingTiers.ts:61-71 | at the optimal ratio of a tier above Base the bonus is the cap |
| DualStakingFigures.OptimalDepositEarns | src/config/dualStakingTiers.ts:72-78 | at the optimal ratio a deposit of at least 0.001 BTC earns 0, 0.10, 0.25, 0.40 or 0.50, by its value alone |
| DualStakingFigures.BonusExactly | src/hooks/useDualStakingTiers.ts:53-72 | with k times the CORE that suits the BTC, 0 <= k <= 2, the bonus is min(cap, fit * cap * (1 + log10(value / 1000) / 2)), where fit is k up to 1 and 2 - k from there, and values below 1000 count as 1000 |
| DualStakingFigures.BonusAtAThousand | src/hooks/useDualStakingTiers.ts:68-71 | at a value of 1000 the bonus is fit * cap |
| DualStakingFigures.SilverExample | src/hooks/useDualStakingTiers.ts:53-72 | 20,000 CORE and one BTC, worth $100,000, get 0.20 |
| DualStakingFigures.AHundredfoldAddsTheFit | src/hooks/useDualStakingTiers.ts:65-71 | a hundred times the value at the same ratio in the same tier adds fit * cap to a bonus below its cap, up to the cap |
| DualStaking.NoBonusExactlyWhen | src/hooks/useDualStakingTiers.ts:56-65 | above Base the bonus is zero if and only if the ratio is off by 50,000 or more |
| DualStaking.CloserRatioNeverLowersBonus | src/hooks/useDualStakingTiers.ts:61-71 | of two deposits of equal value the one closer to the optimal ratio earns no less |
| DualStaking.ScalingNeverLowersBonus | src/hooks/useDualStakingTiers.ts:53-72 | scaling a deposit by k >= 1 never lowers the bonus of the tier it qualifies for, also across tiers |
| DualStakingSplits.SplittingNeverPays | src/hooks/useDualStakingTiers.ts:53-72 | for any number of parts in the ratio of the whole, the value-weighted bonuses of the parts, each in its own tier, add up to at most the whole's |
| DualStakingSplits.PartsEarnAtMostCap | src/hooks/useDualStakingTiers.ts:24-72 | for any parts whatever, they earn at most the whole's value at the cap of the whole's tier, and nothing if the whole is in Base |
| DualStakingSplits.NoSplitPays | src/hooks/useDualStakingTiers.ts:24-72 | no split into any parts earns more than a whole that is in Base, or whose ratio score times (1 + size multiplier) is at least 1 |
| DualStakingSplits.SomeSplitPaysExactlyWhen | src/hooks/useDualStakingTiers.ts:24-72 | for every deposit without a bonus: some split into non-negative parts earns more than the whole if and only if the deposit is above Base and btc * (100000 * CORE price + BTC price) > 10000 |
| DualStakingSplits.OtherSplitsCanPay | src/hooks/useDualStakingTiers.ts:61-71 | a concrete deposit that earns nothing and earns Bronze's cap on the paired part when split so |
| DualStaking.AutoCalculate | src/hooks/useDualStakingTiers.ts:74-123 | the amounts are the fixed BTC of the tier and the largest of three lower bounds on CORE |
| DualStakingFigures.AutoAmountsExactly | src/hooks/useDualStakingTiers.ts:14-17 | for each tier above Base the BTC and the CORE asked for, in figures, at the prices of the feed or 1.5 and 65,000 for missing ones |
| DualStaking.AutoCoreIsLeast | src/hooks/useDualStakingTiers.ts:110-119 | an amount of CORE meets the ratio, the tier floor and the USD threshold together if and only if it is at least the amount asked for |
| DualStaking.AutoLandsInTier | src/hooks/useDualStakingTiers.ts:74-123 | at all positive prices the amounts qualify for the target tier or a higher one, and for the target itself if and only if, at these prices, the amounts fixed by ratio and floor are worth less than the next tier's threshold |
| DualStaking.AutoCoreFallsWithPrices | src/hooks/useDualStakingTiers.ts:110-119 | raising either price never raises the CORE asked for |
| DualStaking.AutoPassesValidation | src/hooks/useDualStakingValidation.ts:23-79 | auto-calculated amounts above Base are refused only for the wallet or missing prices |
| DualStaking.BaseAutoValidation | src/hooks/useDualStakingTiers.ts:75-79 | the fixed Base amounts are accepted if and only if, besides, they are worth the USD minimum; a price at which they are refused |
| DualStakingFigures.RefusedExactlyBecause | src/hooks/useDualStakingValidation.ts:23-79 | for each of the eight reasons, exactly which deposits are refused for it; the first guard that fails decides |
| Redemption.FailsExactlyWhen | src/utils/redemptionCalculator.ts:43-54 | for each of the three errors, exactly which calls fail with it |
| Redemption.ValueExactly | src/utils/redemptionCalculator.ts:61-70 | usdValue * supply = shares * total asset value, and the CORE paid is that value at the CORE price |
| Redemption.BreakdownExactly | src/utils/redemptionCalculator.ts:57-59 | each asset's value is its wei at its price over 10^18, the total is their sum, and the share of the pool is in per cent of the supply |
| Redemption.PartitionConservesValue | src/utils/redemptionCalculator.ts:56-71 | for any division of the supply every payout is granted, the payouts at the CORE price add up to the pool's value, and n payouts in wei are off by less than n wei |
| Redemption.TotalCoreIsProRata | src/utils/redemptionCalculator.ts:61-70 | redeeming in parts against one pool pays what redeeming the sum pays |
| Redemption.UnitInvariance | src/utils/redemptionCalculator.ts:37-71 | scaling supply and both pools by one factor changes neither the CORE nor the USD amount of an accepted call |
| Redemption.RescalingDisarmsTheGuard | src/utils/redemptionCalculator.ts:44-54 | the scaled call accepts what the unscaled one refuses if and only if supply < shares <= k * supply at valid prices; if the pool is worth anything, it then values the shares above the whole pool |
| Redemption.CallersAreHardlyGuarded | src/hooks/useApiBasedRedemption.ts:114-121 | in the callers' unit, k = 10^18, the guard passes all shares up to 10^18 times the supply; twice the supply is redeemed for twice the pool |
| Redemption.NumeraireInvariance | src/utils/redemptionCalculator.ts:57-71 | multiplying both prices leaves the CORE payout alone and scales the USD value |
| Redemption.CoverableExactlyWhen | src/utils/redemptionCalculator.ts:57-70 | pooled CORE covers the payout if and only if shares * pool value <= supply * CORE value; always without BTC |
| Redemption.FulfilmentAgrees | src/utils/redemptionCalculator.ts:99-115 | the check on wei agrees with exact coverage to within one wei; shortfall + available = required |
| TransactionErrors.PermanentExactlyWhen | src/utils/transactionErrorHandler.ts:31-162 | the exact condition for a permanent failure, with two listed markers that can never cause one |
| TransactionErrors.ClassExactly | src/utils/transactionErrorHandler.ts:31-220 | for each class, exactly which messages and codes get it, by the texts of the markers: the first class in order of which a marker is found |
| TransactionRetry.Hook.Run | src/hooks/useStakeBasketTransactions.ts:444-544 | one attempt: the counter moves by one, or back to zero; what the user sees follows from the classified error and the old counter |
| TransactionRetry.AtMostTwoOffers | src/hooks/useStakeBasketTransactions.ts:304-313 | over any run a counter equals the offers since the operation last succeeded or finally failed, and is at most two |
| TransactionRetry.ShownExactlyWhen | src/hooks/useStakeBasketTransactions.ts:502-543 | by the texts of the markers and the history: Retry appears if and only if the error says gas, or network and no gas limit, or nonce and nothing of an earlier class, never with a rejection or funds marker, and fewer than two offers were made since the last reset; other failures are final and re-thrown unless the user rejected |
| TransactionRetry.PersistentFailureEnds | src/hooks/useStakeBasketTransactions.ts:519-543 | from any history, three failed attempts of one operation include a final failure |
| TransactionRetry.OperationsAreIsolated | src/hooks/useStakeBasketTransactions.ts:304-313 | interleaved operations do not affect each other's retries |
| CoreApi.KeyInjective | src/utils/coreApi.ts:89-89 | two cache keys are equal if and only if chain id and parameters are |
| CoreApi.DigitsRoundTrip | src/utils/coreApi.ts:89-89 | the decimal text of a chain id reads back as the chain id |
| CoreApi.Client.BeginRequest | src/utils/coreApi.ts:87-108 | returns the cached body when it is fresh, otherwise leaves the call waiting for the network |
| CoreApi.Client.FinishRequest | src/utils/coreApi.ts:110-119 | stores and returns a successful body; a failure leaves the cache alone |
| CoreApi.CacheAgreesWithNetwork | src/utils/coreApi.ts:87-120 | under any interleaving every value returned is the body of a successful response to the same chain and parameters, less than two minutes old if cached; the cache holds each call's latest response |
| CoreApi.HitsExactlyWhenRecent | src/utils/coreApi.ts:92-95 | after any run a call is answered at once, with the body of its latest successful response, if and only if that is less than 120,000 ms old; otherwise it is sent to the network and nothing is served |
| CoreApi.FetchAnswersItsCall | src/utils/coreApi.ts:104-120 | a response answers its own call and becomes that call's latest one, other calls keep theirs; a failed fetch serves nothing and leaves the cache alone |
| CoreApi.TimestampsNeverDecrease | src/utils/coreApi.ts:117-117 | over any run entries stay and the timestamp of a key never goes back |
| TransactionHistory.FetchLocal | src/hooks/useTransactionHistory.ts:88-142 | the loops yield the first ten matches of the latest twenty-one blocks, latest block first |
| TransactionHistory.MatchesExactly | src/hooks/useTransactionHistory.ts:110-136 | every fetched transaction with a hash whose sender is the user and whose receiver is one of the two contracts, letters compared without case, is recorded field by field, exactly once and in the order of block and index, and nothing else is |
| TransactionHistory.RelevantExactly | src/hooks/useTransactionHistory.ts:113-117 | the test is that of sender, receiver and hash just described, addresses equal character by character up to ASCII case |
| TransactionHistory.FetchedBlocks | src/hooks/useTransactionHistory.ts:89-107 | the latest block and the twenty before it are fetched, as far as there are any, latest first |
| TransactionHistory.ShownExactly | src/hooks/useTransactionHistory.ts:110-145 | of all records the first ten are shown |
| Text.LowerIdentifies | src/hooks/useTransactionHistory.ts:113-115 | two texts agree in lower case if and only if they agree character by character up to ASCII case |
| TransactionHistory.CutBeforeSortIsRight | src/hooks/useTransactionHistory.ts:138-142 | with block times not going back, the result is newest first, a prefix of the matches, no omitted match is newer, and it equals any stable sort followed by the cut |
| TransactionHistory.SortedFormIsUnique | src/hooks/useTransactionHistory.ts:141-141 | two newest-first lists that agree at every time stamp are equal |
| WithdrawFlow.Hook.StartWithdrawal | src/hooks/useWithdrawFlow.ts:55-102 | a new attempt sets the ref and queues its state; a throwing needsApproval ends in error with no amount pending |
| WithdrawFlow.Hook.ApprovalEffect | src/hooks/useWithdrawFlow.ts:105-143 | moves to redemption only while an amount is pending |
| WithdrawFlow.Hook.RedeemAfterDelay | src/hooks/useWithdrawFlow.ts:121-123 | redeems what the ref holds after the delay, on behalf of the attempt it belongs to |
| WithdrawFlow.Hook.Catch | src/hooks/useWithdrawFlow.ts:87-101 | any rejection queues the error state and clears the ref |
| WithdrawFlow.Hook.RedemptionEffect | src/hooks/useWithdrawFlow.ts:146-164 | completes the flow and clears the ref |
| WithdrawFlow.Hook.CancellationEffect | src/hooks/useWithdrawFlow.ts:178-208 | a stage whose transaction is neither loading nor successful ends in error |
| WithdrawFlow.Hook.ResetFlow | src/hooks/useWithdrawFlow.ts:210-216 | back to idle with nothing pending |
| WithdrawFlow.FlowIsConsistent | src/hooks/useWithdrawFlow.ts:55-222 | in every reachable state, under any interleaving and any stale closure: withdrawing iff the step is approval or redemption iff an amount is pending; the rendered state is consistent; a redemption is given no amount or that of the attempt then latest |
| WithdrawFlow.TransitionExactly | src/hooks/useWithdrawFlow.ts:55-216 | for every reachable state and step the flow and the pending amount after it: completed by a redemption success seen in an active stage, failed by a throwing start, a rejection or a cancellation, idle by a reset, otherwise moved on by a start or an approval or left alone |
| WithdrawFlow.RedeemsExactly | src/hooks/useWithdrawFlow.ts:82-123 | a start without need of approval redeems its own amount once, the end of a delay redeems what is then pending once, nothing else redeems |
| WithdrawFlow.DelaysExactly | src/hooks/useWithdrawFlow.ts:106-123 | an approval seen to succeed while an amount is pending begins one delay, of the latest attempt; only its own end ends it |
| WithdrawFlow.AwaitsExactly | src/hooks/useWithdrawFlow.ts:76-141 | a call is awaited after each start that does not throw and each delayed redemption, until it resolves or rejects |
| WithdrawFlow.FlowEndsExactlyWhen | src/hooks/useWithdrawFlow.ts:55-216 | in every reachable state a flow under way is ended by exactly these steps: a reset, a start that throws, a success or cancellation seen by an effect, and the rejection of any attempt |
| WithdrawFlow.DelayedRedemptionExactlyWhen | src/hooks/useWithdrawFlow.ts:119-123 | a redemption after the delay is given no amount if and only if the flow has ended, its own attempt's amount if and only if the flow is under way and the latest attempt is of that amount, and otherwise the latest attempt's amount |
| WithdrawFlow.NothingIsRedeemed | src/hooks/useWithdrawFlow.ts:121-123 | a run in which redeemTokens is called with no amount, after a reset during the delay |
| WithdrawFlow.LateContinuationHitsNewerAttempt | src/hooks/useWithdrawFlow.ts:119-141 | a run in which the first attempt's continuation redeems the second one's amount, and its rejection ends the second attempt |
| WithdrawFlow.CancelledBeforeLoading | src/hooks/useWithdrawFlow.ts:178-191 | a run in which the cancellation effect ends an attempt whose approval is still being awaited |
| WithdrawFlow.GuardIsNeeded | src/hooks/useWithdrawFlow.ts:106-109 | without the test of the ref the approval effect breaks a consistent state exactly when nothing is pending |
| WithdrawFlow.GuardIsReached | src/hooks/useWithdrawFlow.ts:105-106 | such a state is reachable while the rendered step is still approval |
| Faucet.RemainingIsLeastWait | backend/src/routes/faucet.ts:101-122 | on cooldown iff the minutes left are positive, and they are the least whole number of minutes after which the address is off cooldown |
| Faucet.RefusalNamesZeroExactlyWhen | backend/src/routes/faucet.ts:101-122 | a refusal names zero minutes if and only if the cooldown ends between the two readings of the clock; an input |
| Faucet.FaucetRoutes.BeginHandler | backend/src/routes/faucet.ts:282-288 | a handler passes the check or is refused with the minutes left at a second reading of the clock |
| Faucet.FaucetRoutes.EndHandler | backend/src/routes/faucet.ts:326-327 | a failed /request leaves no cooldown; /request-all (lines 419-420) always sets it |
| Faucet.RefusedExactlyWhen | backend/src/routes/faucet.ts:101-109 | over any run a handler is turned away if and only if less than 300,000 ms before a handler for the same address, letters compared without case, ended that had sent tokens or was a /request-all |
| Faucet.GrantedExactlyWhenSent | backend/src/routes/faucet.ts:289-327 | the log of grants gains one entry, with the address and the times of the handler, if and only if tokens were sent |
| Faucet.GrantsAreSpacedExactlyWhen | backend/src/routes/faucet.ts:281-327 | over any run, two grants to one address, compared without case, are at least five minutes apart if and only if their handlers did not overlap |
| Faucet.OverlapIsReached | backend/src/routes/faucet.ts:281-327 | a run in which two overlapping handlers both grant tokens to one address |

## Left out

- React rendering, toasts and their texts, logging, wallet and contract calls, HTTP routing, tokens and HMAC, cron and WebSocket code: input and output.
- Floating-point rounding, exponent notation, NaN and the parsing of amount strings: numbers are idealised; amounts of wei are not negative.
- The Solidity contracts and the backend services are not part of this model.
- WithdrawFlow: that awaited calls and delays ever end, so that a withdrawal ever completes; toasts.
- Faucet: trimming of addresses, which only one of the two routes does.
- TransactionRetry: the refs that remember handled errors are not modelled; they only suppress repeated toasts.
- TransactionErrors: the texts of the classes, and the wrapper `executeTransactionWithErrorHandling`, which retries without a bound when asked to.
- CoreApi: the API key, which is part of the request but not of the cache key; typed accessors around `request`.
- TransactionHistory: the time-limited list cache, the ten-second throttle, unmounting, the remote-chain branches, and the lookups of method name and type from the input.
- RateLimit: the choice of the client id from the request headers.
- Redemption: `calculateSimpleRedemption`, a constant-price fallback.
- NoSplitPays: sufficient only. Exact are deposits without a bonus; for a deposit with a positive bonus below its cap, whether some split pays depends on the logarithm and on the distances to the thresholds.
- Network tables, address configuration, progress bars, formatters and setters.
- The batching of contract health checks, the forced price update and the rebalancing flag.
