# WayChain core: model and proofs

A Dafny model of the state machines at the core of the WayChain node, which is written in Go, and
proofs about them. Amounts are unbounded integers except where 64-bit arithmetic matters: there the
wrap-around is written out. Objects whose methods change their fields are classes, and each of their
methods is proved against a function on values; the laws are then proved about those functions, over
all inputs, all runs or all reachable states.

| File | What it models |
|---|---|
| `TxCodec.dfy`, `Transactions.dfy`, `Text.dfy`, `Bytes.dfy` | the binary wire format of transactions and the text under their signing hash |
| `Scheduler.dfy` | the time-execution engine: recurring tasks with interval, cap, cancellation and reward |
| `Rewards.dfy`, `Emission.dfy` | bracketed staking rewards and the per-block emission with its carry and epoch cap |
| `Blocks.dfy` | the pool, the transaction loop of block production, and plain transfers |
| `Cdp.dfy` | the 2WAY vault and the stability pool, which share storage |
| `Sway.dfy`, `Swap.dfy` | the SWAY supply and its buckets; the exchange quote |
| `Quests.dfy` | the task registry: capped payouts, community tasks, escrow |
| `Validators.dfy` | the validator set and the square-root lottery |
| `Oracle.dfy` | the oracle aggregator and the median |
| `RateLimit.dfy` | the token-bucket limiter and its cleanup |
| `Subscriptions.dfy` | the WebSocket subscription index and its broadcasts |
| `Ledger.dfy`, `Arith.dfy`, `Sorting.dfy`, `Wrappers.dfy` | sums over maps, division, sorting, optional values and results |

`dafny verify dfyconfig.toml` checks the whole project.

## How the code is read

- Storage keys that the code obtains by hashing are map keys, so different inputs have different
  slots. A slot that was never written is zero. Slots keep only the absolute value of what is written
  to them; where a negative number can reach a slot, the model drops the sign as the code does.
- A precompile call that fails keeps what it wrote before it failed: a refused 2WAY mint keeps its fee.
- Signature and badge checks, the clock, the draw of a random number, prices, fees, the reward table
  and the outcomes of socket writes are parameters. A map iteration takes its keys in any order.
- Fractional rates and the emission carry are exact numbers instead of 64-bit floats.

Where the code and its comments differ, the model follows the code:

- The first staking bracket holds 1,001 tokens, not 1,000 (`consensus/progressive_staking.go:28-35`, `167-170`).
- The hard ceiling of SWAY is 5 billion, where the file's header says 10 (`consensus/evm/sway_token.go:23`, `38`).
- The supply counter of SWAY counts bucket reserves from the start and counts a token again when it is
  minted out of a bucket, so it exceeds everything there is (`Sway.SupplyOverstates`).
- An account can be paid for the same task more than once (`consensus/evm/task_registry.go:36`,
  `576-632`; `Quests.VerifiedTwice`), and a claim for any task erases what the account has been verified
  for (`consensus/evm/task_registry.go:79-86`; `Quests.ClaimErases`).
- The quote is called a constant-product market, but no swap moves a reserve
  (`consensus/evm/swap_route.go:211-262`; `Swap.RunWithinReserve`).
- The vault ratio that stops a mint is 130% for every collateral and the one that stops a liquidation
  is 140%, whatever the stored parameters say, so a mint can be liquidated at once
  (`consensus/evm/two_way.go:535-574`; `Cdp.MintableYetLiquidatable`).
- Absorbing a vault's debt leaves the debt in the vault, and a claim by anybody with a reward empties
  the reward buckets of all (`consensus/evm/stability_pool.go:149-229`; `Cdp.AbsorbedAgain`,
  `Cdp.RunCovered`).
- The balance check of block production misses a precompile behind an upper-case `0X`, while
  execution lowers the address first (`consensus/chain.go:492`, `consensus/evm/interpreter.go:78`;
  `Blocks.SameDetection`).
- The gas price is not part of the text under the signing hash (`consensus/chain.go:54-55`).

Properties that fail in general are stated with the exact condition under which they hold:
`Transactions.PreimageUnambiguous`, `TxCodec.RoundTrip`, `TxCodec.Canonicity`,
`Scheduler.ExactCount`, `Scheduler.SpacingExact`, `Scheduler.CountBoundExact`,
`Emission.SafeCaps`, `Blocks.CheckCoversCharge`, `Blocks.SameDetection`, `Cdp.RunDebtExact`,
`Cdp.RunLocked`, `Cdp.RunPoolExact`, `Cdp.DepositSafety`, `Cdp.SafetyExact`, `Cdp.RunCovered`,
`Cdp.AbsorbedAgain`, `Scheduler.ScheduleEarns`, `Oracle.MajorityExact`, `Sway.FeeBurnShrinks`, `Sway.CeilingTest`,
`Swap.RunWithinReserve`, `Swap.TwoTradesWithinReserve`,
`Quests.RecordRoundTrip`, `Quests.SettlementConserves`, `Quests.RunBackedExact`. Concrete inputs
that break them are in `Transactions.ShiftedBorder`, `Scheduler.WidestInterval`,
`Blocks.ZeroGasLimitOverdraws`, `Blocks.FaucetMissed`, `Cdp.SharedPrefixBreaks`,
`Sway.UnnamedBucketPasses` and `Swap.TwoTradesExceedReserve`.

## Model

| member | source | states |
|---|---|---|
| Transactions.PreimageUnambiguous | consensus/chain.go:53-57 | the text under the signing hash determines nonce, addresses, value, gas limit, lane, data and encrypted data if and only if neither address holds a colon |
| Transactions.ColonFreeIsUnique | consensus/serialize.go:128-131 | with colon-free addresses on one side, texts agree exactly when the signed fields do, whatever the other transaction |
| Transactions.ShiftedBorder | consensus/chain.go:54-55 | a colon can move across the border between the addresses without changing the text |
| Transactions.PreimageText | consensus/chain.go:53-57 | the text is nonce, addresses, value, gas limit, lane, length of the data, data and encrypted data in this order, with colons between them |
| Text.SignedInjective | consensus/chain.go:54-55 | different integers print differently in decimal |
| Text.HexInjective | consensus/chain.go:54-55 | different byte strings print differently in hexadecimal |
| Text.DecimalIsShort | consensus/chain.go:54-55 | a decimal number has no leading zero |
| Text.HexDigits | consensus/chain.go:54-55 | two digits for each byte, 0-9 and lower-case a-f |
| Text.JoinInjective | consensus/chain.go:54-55 | colon-free parts are recovered from their joined text |
| TxCodec.SerializeTx | consensus/serialize.go:41-63 | the buffer grown field by field is the wire text of the transaction |
| TxCodec.WireText | consensus/serialize.go:41-63 | the wire text field by field: nonce, gas limit and gas price in eight bytes each, addresses, value and signature after two bytes of length, the lane in one byte, encrypted data and data after four bytes of length |
| TxCodec.Reader.constructor | consensus/serialize.go:191-195 | a reader starts at the first byte |
| TxCodec.Reader.Read | consensus/serialize.go:197-204 | a read succeeds exactly when enough bytes are left, yields the next ones, and changes nothing when it fails |
| TxCodec.ReadChunks | consensus/serialize.go:73-126 | the sixteen reads take the fields in order and fail with the error of the first short one |
| TxCodec.DeserializeTx | consensus/serialize.go:66-134 | the result is the parse of the input, error for error, with the text its hash is taken of |
| TxCodec.RoundTrip | consensus/serialize.go:41-134 | a transaction followed by any bytes is read back unchanged, consuming exactly its own text, if and only if its value is not negative and its fields fit their length prefixes |
| TxCodec.Canonicity | consensus/serialize.go:66-134 | an accepted text is what the serializer writes for its transaction if and only if its value field has no leading zero byte |
| TxCodec.PrefixFree | consensus/serialize.go:41-63 | no wire text is the start of another |
| TxCodec.ReadIsEncodable | consensus/serialize.go:66-134 | whatever is accepted can be serialized again |
| Bytes.ValueOfBigEndian | consensus/serialize.go:152-189 | fixed-width big-endian numbers in range are read back |
| Bytes.BigEndianOfValue | consensus/serialize.go:152-189 | fixed-width bytes are written back from the number they denote |
| Bytes.MinimalOfValue | consensus/serialize.go:42-51 | bytes are the shortest form of their number exactly when the first is not zero |
| Bytes.LastByte | consensus/serialize.go:152-189 | the last byte is the least significant one |
| Scheduler.ExactCount | consensus/evm/oracle_scheduler.go:96-126 | in any run whose blocks are consecutive, a task that its owner does not cancel has executed exactly floor((B - start) / interval) + 1 times, or its cap if it has a smaller one, if and only if block B is before the start or is an execution itself, or the last execution before it has no successor or one at a 64-bit block |
| Scheduler.ScheduleEarns | consensus/evm/oracle_scheduler.go:52-126 | from the call to the money: a caller that schedules its only task and does not cancel it has, after every block from the first to the last was executed, gained its reward floor((last - from) / interval) + 1 times, or as often as its cap says, where `from` is the later of start and first block, if and only if the reward is zero or the task keeps pace |
| Scheduler.ScheduledIsStored | consensus/evm/oracle_scheduler.go:52-79 | an accepted call stores one new, active task with exactly the caller, feed, interval, start, cap and reward it was given, without an execution, under the id text of its counter value; an interval under 100 changes nothing |
| Scheduler.FirstTask | consensus/evm/oracle_scheduler.go:61-76 | the first task of a caller is the only one it has, and balances are untouched |
| Scheduler.OnlyTaskPays | consensus/evm/oracle_scheduler.go:105-122 | an account with one task gains that task's reward once for each of its executions, and nothing else |
| Scheduler.OnlyTaskPaysExactly | consensus/evm/oracle_scheduler.go:96-126 | so it gains exactly what start, interval and cap say if and only if the reward is zero or the task keeps pace |
| Scheduler.LastIsNoted | consensus/evm/oracle_scheduler.go:110-113 | the block of the last execution is noted, whatever the calls |
| Scheduler.CapStops | consensus/evm/oracle_scheduler.go:105-108 | a task that has used up its cap is stopped by the next call, and nothing else about it changes |
| Scheduler.SpacingExact | consensus/evm/oracle_scheduler.go:105-116 | in all calls up to a block, skipped or repeated, executions are one interval apart if and only if block plus interval fits 64 bits, the task is not due by then, or it runs only once |
| Scheduler.CountBoundExact | consensus/evm/oracle_scheduler.go:105-116 | that count bounds all calls up to a block if and only if block plus interval fits 64 bits, the task is not due by then, or its cap is within the count |
| Scheduler.WidestInterval | consensus/evm/oracle_scheduler.go:52-55 | a task with interval 2^64 - 1, which is accepted, runs at every later call |
| Scheduler.SparseCalls | consensus/evm/oracle_scheduler.go:105-116 | with skipped blocks and no sum that wraps, executions are counted, at least one interval apart and bounded by that count |
| Scheduler.NextIsLater | consensus/evm/oracle_scheduler.go:113 | the next due block is later than the current one exactly when the 64-bit sum does not wrap |
| Scheduler.RunAccounts | consensus/evm/oracle_scheduler.go:109-122 | over every run, each account gains exactly the rewards of the executions of its own tasks, and nobody else gains |
| Scheduler.TaskSeesEvents | consensus/evm/oracle_scheduler.go:82-126 | over every run a task is what the blocks and its owner's cancellations make of it, and nothing else touches it |
| Scheduler.CancelledStops | consensus/evm/oracle_scheduler.go:82-104 | after its owner cancels it, a task stays as it is in every run that follows |
| Scheduler.FreshName | consensus/evm/oracle_scheduler.go:57-59 | the text a task id is hashed from was never used before |
| Scheduler.TimeExecution.constructor | consensus/evm/oracle_scheduler.go:44-49 | an engine starts without tasks on the counter it finds |
| Scheduler.TimeExecution.ScheduleTask | consensus/evm/oracle_scheduler.go:52-79 | intervals under 100 are refused; otherwise the task with the given parameters (`Scheduler.ScheduledIsStored`) is stored and listed, under an unused id while the 64-bit counter has not wrapped |
| Scheduler.TimeExecution.CancelTask | consensus/evm/oracle_scheduler.go:82-92 | only an existing task is deactivated, and only by its owner |
| Scheduler.TimeExecution.RunTask | consensus/evm/oracle_scheduler.go:101-123 | a due task counts one execution, moves its next block and credits its owner; a task at its cap is retired |
| Scheduler.TimeExecution.ExecuteDueTasks | consensus/evm/oracle_scheduler.go:96-126 | every listed task is run once, in order, and the due ones are returned; the order stays a duplicate-free listing of the task map |
| Rewards.CalculateReward | consensus/progressive_staking.go:145-184 | the bracket loop yields the sum of what each token earns at its own rate, rounded down, or nothing under the minimum stake |
| Rewards.ClosedForm | consensus/progressive_staking.go:29-35 | that sum is 15% on the first 1,001 tokens, 8% on 9,000, 4% on 90,000, 2% on 900,000 and 1% above |
| Rewards.RewardMonotone | consensus/progressive_staking.go:145-184 | a larger stake never earns less |
| Rewards.AverageRateFalls | consensus/progressive_staking.go:11-16 | the average rate before rounding never rises with the stake |
| Rewards.MergingGainsNothing | consensus/progressive_staking.go:11-16 | merging two eligible stakes gains at most one token a year |
| Rewards.RewardBound | consensus/progressive_staking.go:145-148 | a reward is at most 15% of the stake, and positive exactly from the minimum stake on |
| Emission.RunConserves | consensus/progressive_staking.go:205-320 | over every run of registrations, removals, claims, blocks and rollovers, accrued emission is carried or minted, minted tokens are unclaimed, claimed or forfeited, and what was minted since the last rollover is what counts against the epoch's cap; the stake counter is the sum of stakes |
| Emission.PaymentWithinBounds | consensus/progressive_staking.go:256-299 | a block pays at most the whole tokens accrued, and no payment lifts the epoch above a cap in force |
| Emission.RunWithinCaps | consensus/progressive_staking.go:256-309 | over any run whose blocks have positive caps, everything paid, with what the first epoch had paid before, is at most the largest cap times the number of rollovers plus one |
| Emission.EpochWithinCap | consensus/progressive_staking.go:256-309 | between two rollovers no run pays more than the largest cap among its blocks |
| Emission.StepWithinCap | consensus/progressive_staking.go:256-309 | each payment is added to what the epoch has minted, a rollover sets that to zero, and no block lifts it above a cap in force |
| Emission.CapNearlyReached | consensus/progressive_staking.go:268-299 | a block that meets the cap uses it up to less than one token for each earning validator, while no product wraps around |
| Emission.FairShare | consensus/progressive_staking.go:277-292 | a validator is credited the whole part of available tokens times its annual reward over the sum of annual rewards, while no product wraps around |
| Emission.RunAccount | consensus/progressive_staking.go:205-320 | over every run a validator's stake is the last one it registered, and its unclaimed reward moves by its own shares, claims and removals alone |
| Emission.PayoutsAreCredits | consensus/progressive_staking.go:280-302 | the caller is told exactly which validators were credited, and with how much |
| Emission.AnnualEmissionMeans | consensus/progressive_staking.go:108-113 | the annual emission is the whole part of a million times the rate in per cent |
| Emission.PerBlockMeans | consensus/progressive_staking.go:115-119 | the emission of a block times 31,536,000 is the annual emission times the block time in seconds |
| Emission.EpochCapMeans | consensus/progressive_staking.go:127-141 | the cap is the whole part of what the blocks of an epoch accrue, or a year's emission for an epoch without length |
| Emission.CarryBound | consensus/progressive_staking.go:264-299 | while the cap does not bind, the carry after a block is below the number of earning validators plus one |
| Emission.SafeCaps | consensus/progressive_staking.go:256-284 | a cap keeps every product of available tokens and an annual reward within 64 bits, for all stakes within the supply and any accrual, if and only if it does so times 1,012,470 |
| Emission.TopReward | consensus/progressive_staking.go:145-184 | 1,012,470 is what one validator earns with the whole supply at stake |
| Emission.ProductsNeverOverflow | consensus/progressive_staking.go:256-284 | with stakes within the supply and a safe cap in force at each block, however governance changes the rate in between, no such product wraps around |
| Emission.UncappedNeverOverflow | consensus/progressive_staking.go:256-284 | nor does one while every cap rounds down to zero, where a block emits less than a token, and the carry stays below 1,000,001 |
| Emission.AnyPolicyFits | consensus/progressive_staking.go:252-284 | nor does one under any mixture of caps while the carry and the summed emission of the run's blocks stay under the largest safe cap |
| Emission.NothingPaid | consensus/progressive_staking.go:265-268 | a block without a whole token to pay only accrues |
| Emission.ProgressiveStaking.constructor | consensus/progressive_staking.go:91-106 | the manager starts empty; rates and block times that are not positive become seven percent and three seconds, and the rate is put within its bounds |
| Emission.ProgressiveStaking.SetInflationPct | consensus/evm/inflation.go:41-50 | a rate within 3% and 9% is applied as it is, another as the bound next to it |
| Emission.ProgressiveStaking.RegisterStake | consensus/progressive_staking.go:205-217 | a stake is set or replaced, the counter moves by the difference, and earlier rewards are kept |
| Emission.ProgressiveStaking.RemoveStake | consensus/progressive_staking.go:220-225 | the record goes with its unclaimed reward, and the counter loses its stake |
| Emission.ProgressiveStaking.ClaimReward | consensus/progressive_staking.go:312-320 | the unclaimed reward is returned and set to zero |
| Emission.ProgressiveStaking.RolloverEpoch | consensus/progressive_staking.go:307-309 | only the epoch counter is reset |
| Emission.ProgressiveStaking.AnnualRewards | consensus/progressive_staking.go:239-246 | the annual reward of every validator and their 64-bit sum |
| Emission.ProgressiveStaking.PayOut | consensus/progressive_staking.go:277-292 | every validator is credited its floored share of the available tokens, and only nonzero shares are reported |
| Emission.ProgressiveStaking.PayShares | consensus/progressive_staking.go:282-292 | the loop credits and reports each share once, in any order |
| Emission.ProgressiveStaking.DistributeBlockReward | consensus/progressive_staking.go:235-302 | a block accrues, is held back by an exhausted cap, pays what is available, and carries the rest |
| Blocks.TransfersAccount | consensus/chain.go:453-542 | any list of transfers to accounts without code, with sufficient gas limits and products and nonces within 64 bits, keeps balances non-negative, takes exactly the fees (and self-sent values) of the executed ones out of circulation, and raises each nonce by the number executed |
| Blocks.BalancesExact | consensus/chain.go:511-532 | for such a list, each account ends with its balance, plus what executed transfers sent to it, less what it sent and its fees |
| Blocks.NoReplay | consensus/chain.go:470-532 | over any blocks, no pair of sender and nonce is executed twice, as long as execution never lowers a nonce and none wraps |
| Blocks.RunAdmits | consensus/chain.go:457-507 | over every run, whatever happens to the accounts in between, each executed transaction had a good signature or none, the nonce of its sender, a sender of level two or more if it created a contract, and the funds for its expected gas and value |
| Blocks.NoForgery | consensus/chain.go:457-468 | in any list no transaction with a bad signature is executed or included |
| Blocks.AllRefused | consensus/chain.go:457-507 | a list whose transactions all have a bad signature, a wrong nonce, a contract creation below level two or too little balance leaves every account as it was, and executes and includes nothing |
| Blocks.IncludedExactly | consensus/chain.go:453-542 | the block holds exactly the transactions that are not refused by the accounts they meet and do not fail, in order |
| Blocks.SenderPays | consensus/chain.go:528-532 | an executed transaction, failed or not, costs its sender the gas used at its price, or at one, in 64 bits, and the value; its nonce rises by one, and all else is as execution left it |
| Blocks.OtherExecutes | consensus/evm/interpreter.go:75-130 | what has call data, a precompile, code or no recipient is executed by the machine, not as a plain transfer |
| Blocks.CheckCoversCharge | consensus/chain.go:488-531 | the balance check keeps the sender of a plain transfer solvent exactly when the gas charged costs no more than the gas checked, in 64-bit arithmetic |
| Blocks.ZeroGasLimitOverdraws | consensus/chain.go:505-531 | a transfer with gas limit zero passes the check and leaves its sender negative |
| Blocks.SameDetection | consensus/chain.go:491-504 | the balance check finds the precompile that execution runs if and only if its address does not stand behind an upper-case 0X |
| Blocks.FaucetMissed | consensus/chain.go:489-504 | written 0X27, the faucet runs and costs nothing, but is checked against the full gas limit |
| Blocks.NoPrecompileNoDiscount | consensus/chain.go:491-504 | where execution finds no precompile, the check is against the full gas limit |
| Blocks.CheckedGas | consensus/chain.go:491-504 | the balance check counts the gas limit, or the fixed gas of the precompile if that is less |
| Blocks.PrecompileOfBytes | consensus/evm/interpreter.go:78-94 | in either case of its digits an address names a precompile exactly when all bytes but the last are zero and the last is from 0x0C to 0x27 |
| Blocks.DecodeOfHex | consensus/chain.go:492 | decoding reads back the hexadecimal form of any bytes |
| Blocks.TransferStep | consensus/evm/interpreter.go:113-120 | a plain transfer credits its value to another account, nothing to oneself, and leaves nonces and the sender alone |
| Blocks.TxPool.constructor | consensus/chain.go:66-72 | a pool starts empty |
| Blocks.TxPool.Add | consensus/chain.go:75-86 | a transaction joins the end of its lane; unknown lanes are the consensus lane |
| Blocks.TxPool.PopConsensus | consensus/chain.go:89-99 | the oldest transactions leave, at most as many as asked for, and none is lost |
| Blocks.Chain.Execute | consensus/chain.go:453-542 | one transaction is skipped, or executed, charged and counted, and included only if it did not fail |
| Blocks.Chain.ExecuteAll | consensus/chain.go:453-542 | the loop applies the transactions in order and collects those that are included |
| Blocks.Chain.ProduceBlock | consensus/chain.go:439-542 | a block takes at most ten transactions from the pool in order and applies each once |
| Cdp.RunConsistent | consensus/evm/stability_pool.go:62-246 | in every reachable state total deposits are the sum of deposits, total rewards are the two buckets, cached debt is at most the sum of debts, and nobody both owes minted 2WAY and provides liquidity |
| Cdp.RunDebtExact | consensus/evm/two_way.go:580-598 | the cached debt is exact in every state of a run if and only if each burn of the run is at most its vault's debt or that vault has all the debt |
| Cdp.DebtTotalExact | consensus/evm/two_way.go:580-598 | the cached debt is exact after every run in which no burn exceeds the debt of its vault |
| Cdp.BurnKeepsExactTotal | consensus/evm/two_way.go:303-316 | a burn keeps the cached debt exact exactly when it does not exceed its vault's debt, or that vault has all the debt |
| Cdp.RunLocked | consensus/evm/stability_pool.go:310-327 | the exclusivity locks together are at least the debts in every state of a run if and only if no burn of the run frees more lock than the debt it repays and the surplus of locks before it |
| Cdp.DebtIsLocked | consensus/evm/stability_pool.go:310-327 | in particular they are while no burn exceeds its vault's debt |
| Cdp.LiquidationClears | consensus/evm/two_way.go:349-353 | a liquidation takes the whole debt off its vault and nothing else |
| Cdp.RunMoves | consensus/evm/two_way.go:125-363 | over every run each vault's debt, each account's lock and pool deposit and each collateral entry has moved by exactly the amounts of the successful calls on it, where a burn takes no more than there is, a deposit sets and a liquidation clears |
| Cdp.AcceptedExactly | consensus/evm/two_way.go:125-363 | for every call of vault and pool, in numbers, exactly when it succeeds |
| Cdp.RefusedKeeps | consensus/evm/two_way.go:161-226 | a refused call changes nothing, except that a mint refused for its ratio has paid its fee |
| Cdp.RunDue | consensus/evm/stability_pool.go:149-168 | over every run what an account may claim has grown by the fees of its own mints and fallen by its own claims alone |
| Cdp.FeesConserved | consensus/evm/stability_pool.go:149-179 | over every run, what was claimed and what is still claimable is what mints have paid in fees, refused mints included |
| Cdp.ClaimCovers | consensus/evm/stability_pool.go:163-168 | after a claim the reward buckets hold what is still claimable if and only if the claim took all there was |
| Cdp.RunCovered | consensus/evm/stability_pool.go:149-179 | the buckets hold what is claimable in every state of a run if and only if every claim of the run took all there was |
| Cdp.AbsorbedAgain | consensus/evm/stability_pool.go:182-207 | an absorption leaves the debt, so the next one after n of the same vault succeeds if and only if the pool held n + 1 times the debt |
| Cdp.MintFee | consensus/evm/two_way.go:202-203 | the fee is the amount's share in basis points, rounded down |
| Cdp.Penalty | consensus/evm/stability_pool.go:213-215 | the reward is a tenth of the absorbed debt, rounded down |
| Cdp.RewardsSplit | consensus/evm/two_way.go:204-213 | a fee goes half to WAY and half to SWAY, an odd unit to SWAY, and adds up in the total |
| Cdp.AbsorptionRewards | consensus/evm/stability_pool.go:206-217 | an absorption takes the debt from the pool's balance and books a tenth of it if there are deposits; every vault, deposit and lock stays |
| Cdp.SoleFee | consensus/evm/two_way.go:195-201 | a vault with one collateral pays the fee of its slot in 16 bits, or 150 basis points where that is zero |
| Cdp.RunPoolExact | consensus/evm/stability_pool.go:80-137 | balance and absorbed debt make up the deposits in every state of a run if and only if the pool covered each withdrawal that succeeded |
| Cdp.PoolBalanceExact | consensus/evm/stability_pool.go:80-137 | in particular they do while the pool covers every withdrawal asked for |
| Cdp.WithdrawalKeepsStep | consensus/evm/stability_pool.go:129-137 | a withdrawal keeps balance and deposits in step exactly when the pool covers it; otherwise the balance flips its sign |
| Cdp.WithdrawalFlips | consensus/evm/stability_pool.go:133-137 | a withdrawal lowers the pool's balance by its amount, and one beyond the balance leaves what is missing without its sign |
| Cdp.RunSafe | consensus/evm/two_way.go:125-363 | with vaults that differ in twenty bytes if they differ in thirty-one, and deposits that never name less than is stored, every vault stays collateralised at 130% in every reachable state |
| Cdp.SafetyExact | consensus/evm/two_way.go:402-418 | a set of vaults stays collateralised in every such run from every covered state if and only if any two of them that differ in the 31 bytes keying debt differ in the 20 bytes keying collateral |
| Cdp.DepositSafety | consensus/evm/two_way.go:143-147 | a deposit overwrites: it keeps every safe vault safe exactly when it does not name less than is stored |
| Cdp.SharedPrefixBreaks | consensus/evm/two_way.go:402-418 | two vaults that agree on twenty bytes share collateral but not debt, and one can be emptied through the other |
| Cdp.SlotOf | consensus/evm/two_way.go:402-410 | a name of at most eleven bytes that does not end in zero is its own slot; zeros at the end and bytes after the eleventh are lost |
| Cdp.RatioTest | consensus/evm/two_way.go:546-549 | the ratio test with its rounded division is exact: 13,000 means ten times the collateral is thirteen times the debt, and above 14,000 means at least 14,001 |
| Cdp.OthersUntouched | consensus/evm/two_way.go:402-418 | a call leaves collateral and debt of vaults with another prefix alone |
| Cdp.BurnUndoesMint | consensus/evm/two_way.go:161-326 | burning what was just minted restores all debts and locks; only the fee stays paid |
| Cdp.WithdrawUndoesTopUp | consensus/evm/two_way.go:125-288 | withdrawing what a deposit added to a safe vault succeeds and restores the ledgers |
| Cdp.WithdrawUndoesPoolDeposit | consensus/evm/stability_pool.go:62-146 | withdrawing what was just deposited succeeds and restores the pool |
| Cdp.ParLiquidation | consensus/evm/two_way.go:465-488 | at par a vault can be liquidated exactly while it has debt and its collateral is short of 140.01% of it |
| Cdp.SoleLiquidation | consensus/evm/two_way.go:465-488 | at any price a vault of one collateral can be liquidated exactly while it has debt and 10,000 times floor(amount * price / 10^8) is less than 14,001 times the debt |
| Cdp.WorthOfEntry | consensus/evm/two_way.go:472-484 | each entry is worth its amount times its price over 10^8, rounded down; a price that is absent or zero is 10^8, and an amount that is not positive is worth nothing |
| Cdp.LowerPrices | consensus/evm/two_way.go:465-488 | what can be liquidated at some prices can be liquidated at any lower positive ones |
| Cdp.MintableYetLiquidatable | consensus/evm/two_way.go:535-574 | a mint at 130% succeeds and can be liquidated at once |
| Cdp.Protocol.constructor | consensus/evm/stability_pool.go:14-22 | storage starts empty |
| Cdp.Protocol.TwoWayDeposit | consensus/evm/two_way.go:125-157 | an accepted collateral's amount is overwritten under the first eleven bytes of its name; others are refused |
| Cdp.Protocol.TwoWayMint | consensus/evm/two_way.go:161-236 | each refusal in its order, the fee kept even when the ratio refuses, debt, total and lock raised on success |
| Cdp.Protocol.RouteMintFee | consensus/evm/two_way.go:204-213 | the fee is split over the reward buckets, the odd unit to SWAY, and booked for the caller |
| Cdp.Protocol.TwoWayWithdraw | consensus/evm/two_way.go:240-288 | more than is stored, or a ratio under 130%, is refused; otherwise the amount falls |
| Cdp.Protocol.TwoWayBurn | consensus/evm/two_way.go:292-326 | vault debt, lock and total each fall, none below zero |
| Cdp.Protocol.TwoWayLiquidate | consensus/evm/two_way.go:330-363 | a vault above 140% is refused; otherwise its debt is cleared and taken from the total |
| Cdp.Protocol.StabilityDeposit | consensus/evm/stability_pool.go:62-102 | zero amounts and minters are refused; otherwise deposit, total and balance rise |
| Cdp.Protocol.StabilityWithdraw | consensus/evm/stability_pool.go:105-146 | more than the deposit is refused; otherwise deposit, total and balance fall |
| Cdp.Protocol.StabilityClaimRewards | consensus/evm/stability_pool.go:149-179 | the caller's rewards are paid out and every reward bucket is emptied |
| Cdp.Protocol.StabilityAbsorb | consensus/evm/stability_pool.go:182-246 | the pool gives up the vault's debt if it can, and a tenth of it is booked as reward |
| Cdp.SumOf | consensus/evm/two_way.go:536-539 | summing in map order yields the sum of the entries, whatever the order |
| Cdp.MintFeeBps | consensus/evm/two_way.go:195-201 | the fee is that of some collateral of the vault, or 150 basis points if none has one |
| Cdp.AboveMinRatio | consensus/evm/two_way.go:535-550 | the test passes exactly at 130% or more, or without debt |
| Cdp.AboveLiquidationRatio | consensus/evm/two_way.go:563-574 | the test passes exactly from 140.01% of the priced collateral on, or without debt |
| Sway.RunAccounts | consensus/evm/sway_token.go:81-250 | after any calls, balances are what was minted less what was burned, the two mintable buckets gave out exactly what was minted, and a seeded supply is the balances, 650 million and the ecosystem reserve |
| Sway.SupplyOverstates | consensus/evm/sway_token.go:86-102 | the supply counter exceeds all balances and buckets together by exactly what has been minted |
| Sway.RunBuckets | consensus/evm/sway_token.go:81-299 | after any calls with fees that are not negative, the seeded buckets hold 200, 450 and 350 million less what liquidity rewards, task rewards and fee burns have taken from each |
| Sway.RunBalances | consensus/evm/sway_token.go:174-299 | after any calls each account holds exactly what was minted to it less what was burned from it |
| Sway.WhoMayMint | consensus/evm/sway_token.go:263-291 | a mint for others is refused to all but the exchange and the pool, and one for the caller to all but the vault and the task registry |
| Sway.MintsExactly | consensus/evm/sway_token.go:174-206 | in every reachable state a permitted mint succeeds if and only if its amount is positive and its bucket still holds it |
| Sway.FeeBurnMeans | consensus/evm/sway_token.go:231-248 | a fee burns its fifth, rounded down, or all that is left of the reserve |
| Sway.BurnUndoesMint | consensus/evm/sway_token.go:174-225 | burning from the recipient what was minted restores every balance and the supply |
| Sway.CeilingNeverRefuses | consensus/evm/sway_token.go:188-193 | with fees that are not negative the supply stays within 1.65 billion and no call is refused for the ceiling |
| Sway.MintUnderCeiling | consensus/evm/sway_token.go:180-193 | a mint within a named bucket passes the truncated ceiling test |
| Sway.CeilingTest | consensus/evm/sway_token.go:191 | the truncated comparison is right exactly when the new supply fits 64 bits or its low 64 bits exceed the ceiling by themselves |
| Sway.CeilingExactly | consensus/evm/sway_token.go:175-193 | a mint is refused for the ceiling if and only if nothing else refuses it and the low 64 bits of the new supply are above five billion |
| Sway.UnnamedBucketPasses | consensus/evm/sway_token.go:181-193 | without a bucket, a mint of 2^64 passes the ceiling |
| Sway.FeeBurnShrinks | consensus/evm/sway_token.go:231-250 | a burn from fees does not raise the supply exactly when the fee is not negative |
| Sway.RequestOf | consensus/evm/sway_token.go:263-291 | every permitted mint names the liquidity or the task bucket |
| Sway.SwayToken.constructor | consensus/evm/sway_token.go:58-63 | the token starts unseeded and empty |
| Sway.SwayToken.SwayInit | consensus/evm/sway_token.go:81-103 | the supply and the three buckets are seeded once; a second call changes nothing |
| Sway.SwayToken.SwayMintInternal | consensus/evm/sway_token.go:174-206 | each refusal in its order; otherwise balance and supply rise and a named bucket falls |
| Sway.SwayToken.SwayBurnInternal | consensus/evm/sway_token.go:209-225 | more than the balance is refused; otherwise balance and supply fall |
| Sway.SwayToken.SwayBurnFromFees | consensus/evm/sway_token.go:231-250 | a fifth of the fee, or what is left, leaves the reserve and the supply, and is returned |
| Sway.SwayToken.SwayPrecompile | consensus/evm/sway_token.go:252-299 | only the exchange and the pool mint for others, only the vault and the task registry for themselves, each from its bucket |
| Swap.QuoteIsLargest | consensus/evm/swap_route.go:236-248 | the quote is the largest output the constant-product rule allows for 99.7% of the input |
| Swap.OutputBelowReserve | consensus/evm/swap_route.go:248 | a quote is never negative and never the whole reserve |
| Swap.QuoteMonotone | consensus/evm/swap_route.go:239-248 | more input never yields less output |
| Swap.ProductNeverFalls | consensus/evm/swap_route.go:236-248 | the product of the reserves does not fall under a quote, despite rounding |
| Swap.SplitInTwo | consensus/evm/swap_route.go:221-248 | at unmoved reserves, two trades pay at least what their sum pays, but for one unit |
| Swap.SplitTrade | consensus/evm/swap_route.go:221-248 | splitting a trade into n parts loses at most n - 1 units |
| Swap.RunWithinReserve | consensus/evm/swap_route.go:221-248 | any run of trades is paid at most the output reserve, whatever that holds, if and only if their shares 997a / (1000r + 997a) add up to at most one |
| Swap.TwoTradesWithinReserve | consensus/evm/swap_route.go:221-248 | two trades are, if and only if the product of their inputs at 99.7% is at most the square of the input reserve |
| Swap.TwoTradesExceedReserve | consensus/evm/swap_route.go:228-248 | at the default reserves two trades of three million are quoted more than the whole reserve |
| Swap.SwapRoute.Swap | consensus/evm/swap_route.go:213-262 | a swap under the wanted minimum is refused and changes nothing; otherwise it pays the quote, mints SWAY for its volume and moves no reserve |
| Swap.SwapRoute.AddLiquidity | consensus/evm/swap_route.go:141-166 | both amounts add to one total and a hundred SWAY are minted while the bucket lasts |
| Quests.RunWithinCap | consensus/evm/task_registry.go:576-714 | under any interleaving of payouts and supply growth, cumulative payouts stay within 5% of the supply, so the remaining pool is never clamped |
| Quests.CapGrows | consensus/evm/task_registry.go:674-681 | the cap never falls while the supply grows |
| Quests.CapMeans | consensus/evm/task_registry.go:674-681 | the cap is five percent of the supply, rounded down |
| Quests.RunMoves | consensus/evm/task_registry.go:79-400 | over every run each balance, each escrow, the sum of payouts and the supply have moved by exactly what the successful calls have named |
| Quests.AcceptedExactly | consensus/evm/task_registry.go:79-400 | exactly when each call succeeds: who may verify and settle, which tasks, and how much room the cap and the balance must leave |
| Quests.RefusedKeeps | consensus/evm/task_registry.go:79-400 | a refused call changes nothing |
| Quests.ClaimsMarked | consensus/evm/task_registry.go:79-86 | each claim and each verification marks the slot of its own account with the first 31 bytes of the task and a one or a two, and no other slot |
| Quests.ClaimErases | consensus/evm/task_registry.go:79-86 | an account has one slot: a claim for any task erases what it has been verified for |
| Quests.RecordsKept | consensus/evm/task_registry.go:285-305 | only a creation with a reward changes a record, and only its own |
| Quests.PayoutConserves | consensus/evm/task_registry.go:600-630 | a payout conserves the sum of balances, even when the claimant is the treasury |
| Quests.RunConserves | consensus/evm/task_registry.go:183-400 | over any run balances grow by exactly what was funded and what settlements credited although the payer was not debited |
| Quests.SettlementConserves | consensus/evm/task_registry.go:359-400 | a settlement conserves balances exactly when its payer can pay, or nothing is due |
| Quests.RunBacked | consensus/evm/task_registry.go:307-400 | on runs whose settlements stay within their escrow and whose escrows are not in the holder's name, the escrow slots never exceed the holder's balance |
| Quests.RunBackedExact | consensus/evm/task_registry.go:307-400 | the escrow is backed in every state of a run if and only if each escrow and each settlement of the run meets its condition |
| Quests.EscrowKeepsBacking | consensus/evm/task_registry.go:307-334 | an escrow keeps the escrow backed if and only if its poster is not the holder, or the holder's balance covers it on top of all others |
| Quests.EscrowPaysOut | consensus/evm/task_registry.go:307-400 | a task escrowed for its reward pays it from its poster to the claimant and leaves nothing with the holder |
| Quests.SettleKeepsBacking | consensus/evm/task_registry.go:359-399 | a settlement keeps the escrow backed if and only if the treasury pays it, the holder is paid, it takes beyond its own escrow no more than the holder's surplus, or the holder cannot be debited at all |
| Quests.RecordRoundTrip | consensus/evm/task_registry.go:285-305 | a task record gives back level, mode and reward exactly when the reward is below 2^240 |
| Quests.LongReward | consensus/evm/task_registry.go:298-303 | a reward of 32 bytes is all that its record holds |
| Quests.CreatedUnknown | consensus/evm/task_registry.go:343-346 | a created task is unknown to its settlement exactly when its level and mode are both zero |
| Quests.VerifiedTwice | consensus/evm/task_registry.go:571-632 | a second verification of the same task for the same account succeeds if and only if the cap has room, and what both pay follows from what the treasury holds |
| Quests.TaskRegistry.constructor | consensus/evm/task_registry.go:43-56 | the registry starts without supply, payouts, records or escrow |
| Quests.TaskRegistry.QuestAddSupply | consensus/evm/task_registry.go:663-672 | positive amounts add to the supply, others change nothing |
| Quests.TaskRegistry.QuestFund | consensus/evm/task_registry.go:183-190 | the treasury is credited |
| Quests.TaskRegistry.TaskClaim | consensus/evm/task_registry.go:79-86 | the caller's only claim slot is overwritten |
| Quests.TaskRegistry.VerifyAndPay | consensus/evm/task_registry.go:576-632 | over the cap nothing changes; otherwise the claim is verified and the reward counts as paid, moved only if the treasury can pay it |
| Quests.TaskRegistry.TaskVerify | consensus/evm/task_registry.go:88-99 | a verifier needs a badge of level two |
| Quests.TaskRegistry.TaskAutoVerify | consensus/evm/task_registry.go:101-119 | the autopilot verifies eligible tasks only |
| Quests.TaskRegistry.CreateTask | consensus/evm/task_registry.go:285-305 | a zero reward is refused; otherwise the packed record is stored |
| Quests.TaskRegistry.EscrowTask | consensus/evm/task_registry.go:307-334 | more than the balance is refused; otherwise the amount moves to the holder and to the task's slot |
| Quests.TaskRegistry.VerifyCommunity | consensus/evm/task_registry.go:336-400 | unknown tasks and callers without the right are refused; otherwise the task is settled |
| Quests.TaskRegistry.PaySettlement | consensus/evm/task_registry.go:359-399 | the escrow falls by the reward or to zero, the payer is debited if it can pay, and the claimant is credited in any case |
| Validators.RunWell | consensus/validators.go:34-93 | over any run the ids are strictly sorted, at most 200, exactly those with a stake; stakes are at least 100 and counters below 50 |
| Validators.JailedEveryFifty | consensus/validators.go:85-93 | an id that is only marked is jailed once for every fifty misses, and its counter holds the rest |
| Validators.MissStep | consensus/validators.go:85-93 | the fiftieth miss of an id, listed or not, jails it and starts its counter anew |
| Validators.AddedExactly | consensus/validators.go:34-52 | an id is added if and only if it is not listed, stakes at least 100 and finds fewer than 200 others; then it is listed with its stake and no miss, and nothing else changes |
| Validators.LeavesExactly | consensus/validators.go:67-82 | removal and jailing take the id with its stake and counter and leave all others; jailing notes it |
| Validators.RemoveUndoesAdd | consensus/validators.go:34-76 | removing what was just added restores ids and stakes |
| Validators.JailedMayReturn | consensus/validators.go:34-43 | a jailed validator can register again at once |
| Validators.DrawIsFair | consensus/validators.go:124-142 | for any pick from zero to the total a validator is selected exactly when the pick lies in its interval, and neither special case is taken |
| Validators.SelectedOutside | consensus/validators.go:128-142 | without weight the first id is selected, and beyond the total weight the last |
| Validators.OneWinner | consensus/validators.go:134-140 | the intervals do not overlap |
| Validators.CumulativeGrows | consensus/validators.go:134-140 | each interval is as long as the validator's weight |
| Validators.PickInRange | consensus/validators.go:132 | the pick lies between zero and the total weight |
| Validators.WeightAtLeastTen | consensus/validators.go:110-112 | a weight is at least ten |
| Validators.TotalAtLeastTens | consensus/validators.go:115-128 | the total weight is at least ten for each listed validator, so it is positive unless the set is empty |
| Validators.SplitWeighsMore | consensus/validators.go:110-112 | a stake split over two ids weighs more than on one |
| Validators.ValidatorSet.constructor | consensus/validators.go:24-31 | a set starts empty |
| Validators.ValidatorSet.Add | consensus/validators.go:34-52 | known ids, small stakes and a full set are refused in this order; otherwise the id is sorted in with a counter of zero |
| Validators.ValidatorSet.Remove | consensus/validators.go:67-76 | the id leaves the list, the stakes and the counters; the order of the others stays |
| Validators.ValidatorSet.Jail | consensus/validators.go:79-82 | the id is removed and appended to the jailed |
| Validators.ValidatorSet.MarkMissed | consensus/validators.go:85-93 | the counter rises, for unknown ids too, and the fiftieth miss jails |
| Validators.ValidatorSet.SelectProposer | consensus/validators.go:124-142 | the first id whose cumulative weight reaches the pick, the first without weight, or the last if none reaches it |
| Validators.ValidatorSet.TotalSqrtWeight | consensus/validators.go:115-121 | the sum of the listed weights |
| Oracle.Median | consensus/evm/crypto_verify.go:57-65 | zero for no values; otherwise a value with at most half of the values below and less than half above |
| Oracle.MiddleIsMedian | consensus/evm/crypto_verify.go:61-64 | the middle of the sorted copy is such a value |
| Oracle.MedianIsUnique | consensus/evm/crypto_verify.go:57-65 | values in any order have one and the same median |
| Oracle.MedianIsRobust | consensus/evm/precompiles.go:226-228 | if strictly more than half of the values lie in an interval, so does the median |
| Oracle.MajorityExact | consensus/evm/crypto_verify.go:57-65 | k of n values in an interval force the median into it, whatever the others are, if and only if they are more than half |
| Oracle.TrustedMajority | consensus/evm/precompiles.go:246-279 | if strictly more than half of the accepted records come from trusted keys with values in an interval, the aggregated value lies in it: the share of records counts, not of keys |
| Oracle.OneAmongOthers | consensus/evm/precompiles.go:250-270 | one badged key that repeats its own record more often than there are records of others decides the result |
| Oracle.VerifiedValues | consensus/evm/precompiles.go:246-270 | the record loop collects exactly the values of the accepted records in order and reads no byte beyond the checked length |
| Oracle.AcceptedCount | consensus/evm/precompiles.go:246-270 | there is one value for each accepted record |
| Oracle.AcceptedValue | consensus/evm/precompiles.go:250-268 | each accepted record gives the number in its second 32 bytes |
| Oracle.ValueAccepted | consensus/evm/precompiles.go:250-268 | every value is that of an accepted record |
| Oracle.RecordAt | consensus/evm/precompiles.go:249-255 | the i-th record is the i-th 160 bytes after the first byte |
| Oracle.ConfidenceInRange | consensus/evm/precompiles.go:272-275 | the confidence lies between 0 and 100 |
| Oracle.Aggregate | consensus/evm/precompiles.go:229-282 | each rejection exactly on its input; otherwise the confidence and the median of the accepted values, in 33 bytes |
| Sorting.SortedCopy | consensus/evm/crypto_verify.go:61-63 | a sorted copy with the same elements |
| RateLimit.AdmissionBound | consensus/rate_limit.go:40-66 | between times t and u at most rate + floor((u - t) / floor(window / rate)) requests of one address are admitted, over any run with sweeps in between |
| RateLimit.WindowBound | consensus/rate_limit.go:40-66 | in any span of at most one window an address is admitted at most rate + floor(window / floor(window / rate)) times, which is twice the rate if the rate divides the window |
| RateLimit.HastyNeverAdmitted | consensus/rate_limit.go:53-65 | an address without tokens that keeps asking sooner than window / rate after its last request is never admitted, over any run with sweeps and other addresses in between |
| RateLimit.AdmitsExactly | consensus/rate_limit.go:53-65 | a known address is admitted if and only if it holds a token or has left the time of one, window / rate, since its last request |
| RateLimit.TruncatedTowardZero | consensus/rate_limit.go:55 | the tokens earned are elapsed time over window / rate, rounded toward zero |
| RateLimit.BurstAdmitted | consensus/rate_limit.go:44-65 | the first requests of an address are admitted for as many tokens as it has: the whole rate for one not seen before |
| RateLimit.SpacedNeverRefused | consensus/rate_limit.go:53-65 | an address that leaves one token's time between its requests is never refused |
| RateLimit.SweepsAreInvisible | consensus/rate_limit.go:97-110 | deleting buckets idle for more than ten windows changes no later answer |
| RateLimit.SweptExactly | consensus/rate_limit.go:101-108 | a sweep forgets exactly the buckets not used for ten windows and keeps the others as they are |
| RateLimit.StepIsSound | consensus/rate_limit.go:53-65 | a bucket is never overdrawn, never overfull and never from the future |
| RateLimit.FullAfterWindow | consensus/rate_limit.go:54-58 | an address idle for a window has earned a full bucket |
| RateLimit.RateLimiter.constructor | consensus/rate_limit.go:28-37 | a limiter starts without buckets |
| RateLimit.RateLimiter.Allow | consensus/rate_limit.go:40-66 | the answer and the bucket after a request |
| RateLimit.RateLimiter.Cleanup | consensus/rate_limit.go:101-108 | exactly the buckets idle for more than ten windows go |
| Subscriptions.RunWell | consensus/rpc_ws.go:49-109 | while the counter has not wrapped, the two maps are inverses of each other without empty sets, and each done channel is closed exactly once, when its subscription goes |
| Subscriptions.CleanWell | consensus/rpc_ws.go:95-109 | cleaning up a connection removes exactly its subscriptions |
| Subscriptions.SubscriptionLasts | consensus/rpc_ws.go:49-109 | from the call on, over any run without a wrap, a subscription is there with the kind and connection it was given if and only if it has not been unsubscribed and its connection not cleaned up |
| Subscriptions.SubscribedIsStored | consensus/rpc_ws.go:49-69 | a new subscription is stored under the next number with its kind and connection, and nothing else changes |
| Subscriptions.LivesUntilClosed | consensus/rpc_ws.go:72-109 | a live subscription stays what it is until it is closed, and never comes back |
| Subscriptions.UnsubscribeUndoesSubscribe | consensus/rpc_ws.go:49-92 | unsubscribing restores the index but for the counter and the closed channel |
| Subscriptions.SubscriptionManager.constructor | consensus/rpc_ws.go:41-46 | an index starts empty |
| Subscriptions.SubscriptionManager.Subscribe | consensus/rpc_ws.go:49-69 | the next id of the 64-bit counter is linked both ways; it is unused while the counter has not wrapped |
| Subscriptions.SubscriptionManager.Unsubscribe | consensus/rpc_ws.go:72-92 | unknown ids change nothing; otherwise both links go, with an emptied set, and the channel is closed |
| Subscriptions.SubscriptionManager.CleanupConn | consensus/rpc_ws.go:95-109 | all subscriptions of the connection go and their channels are closed |
| Subscriptions.SubscriptionManager.Broadcast | consensus/rpc_ws.go:112-139 | every subscription of the kind is written to once unless its connection failed before, nothing follows a failed write, and exactly the subscriptions of failed connections are removed |
| Subscriptions.SubscriptionManager.SendNotification | consensus/rpc_ws.go:165-184 | a failed write removes the subscriptions of its connection, a successful one changes nothing |

## Left out

- Emission.ProgressiveStaking.DistributeBlockReward: the carry and the per-block emission are exact reals, so the rounding of 64-bit floats is not modelled; `Accumulated` and `epochMinted` are unbounded.
- Emission.ProgressiveStaking.constructor: the inflation rate is a field of the manager instead of a variable of the package.
- Rewards.CalculateReward: rates are whole hundredths instead of 64-bit floats, so float rounding of very large stakes is not modelled.
- Validators.ValidatorSet.SelectProposer: weights are exact square roots and the draw is a parameter; the seed and the generator are not modelled.
- Validators.ValidatorSet.TotalSqrtWeight: exact, without float rounding.
- Scheduler.ExactCount: is about one engine that lives through the run. `ProduceBlock` and the scheduling precompile each build a new engine, so no task of the one is ever run by the other. The execution count is unbounded.
- Scheduler.ScheduleEarns: as `Scheduler.ExactCount`, about one engine that lives through the run.
- Blocks.NoReplay: what execution does outside plain transfers (precompile calls, contract creation, contract calls) is a parameter that must not lower nonces.
- Blocks.Chain.ProduceBlock: the scheduler, validator rewards, the treasury share, the econo policy, logs, hashes and storage after the transaction loop are left out, and so are the oracle and private lanes.
- Subscriptions.SubscriptionManager.Broadcast: one call at a time, as the code's locks give for the maps; writes from several goroutines at once are not modelled.
- RateLimit.AdmissionBound: the clock is an integer that does not step back between readings; the header an address is taken from is not modelled.
- Cdp.RunSafe: counts collateral amounts as the code's mint and withdraw do; oracle prices enter liquidation only.
- Input parsing of the precompiles (selectors, lengths), events and log entries, and slot values of 2^256 and more, at which the code panics.
- Aliasing of Go records (tasks, accounts, rewards) through references: they are map entries.
- `SwayEmissionBps` and the projections from it, and the SWAY `getBalance` and `swapFee` selectors, which use another storage key than the ledger.
- Swap.SwapRoute.AddLiquidity: the time lock the provider is given is another precompile's and is not modelled.
- Pair creation, and liquidity removal, which always fails.
- Bounties, giveaways, micro-task delegation and autopilot designation of the task registry; the table of quest rewards.
- The consensus engine and round manager: votes are counted without removing duplicates.
- The 1WAY stablecoin, state rent, account recovery, locks, privacy proofs, governance, mineral rights, attestation, the faucet, badges and the dead-man's switch: stubs, or branch-local checks that would add only easy members.
- ed25519, SHA-256 and Keccak themselves, the revm bridge, the database, networking, HTTP and user interfaces.
