# Marinade liquid staking: a verified model

The program is a liquid-staking pool on Solana. Users deposit SOL and receive mSOL, priced at V / S: V is the lamports
under control less the open tickets, S the mSOL supply. The pool stakes the SOL to validators according to their scores,
cools stake down to pay delayed-unstake tickets, updates its books after rewards and slashes, and runs a SOL/mSOL
liquidity pool. Its totals are never recomputed: each instruction keeps them in step by hand.

The model has five layers.

- **Chain values and one function per instruction** (`State`, `Cranks`, `Users`, `Pools`, `Admin`): the state account, the
  stake and validator lists, and the accounts the program controls, as one value; an instruction gives the next value or
  the error. `Machine` puts them together with what happens outside the program between instructions: rewards, slashes,
  lamports sent to any account, and tokens burned by their holders. An instruction that fails changes nothing.
- **The program as written** (`Marinade`): a class with those fields and a method for each instruction that assigns them
  in the order of the source. Every method is proved to realise its function; `Execute` is one transaction with its
  rollback.
- **Theorems about all states and runs**: `Ledger`, `CrankBooks`, `UpdateBooks`, `UserBooks`, `Invariants` and `Totals`
  (the books agree, nothing underflows), `Price`, `Restart`, `Withdrawals`, `Solvency` and `RoundTrips` (the price),
  `PoolShares` and `Dilution` (the liquidity pool), `Scheduler`, `CrankLimits`, `Progress` and `Redelegation` (the
  rebalancing cranks), `Flows`, `Reserve`, `Settlement` and `MoveCap` (tickets, the two reserve balances and the cap on
  moves). `Witnesses` has the runs from creation that end where a property one would expect fails.
- **Exact effects** (`Rates`, `UserEffects`, `PoolEffects`, `UpdateEffects`, `CrankEffects`, `AdminEffects`, `Refusals`): every
  instruction once more, by its relation of the chain before to the chain after. Amounts are given by the inequalities a
  rounded quotient satisfies, the value behind the mSOL and the delta as sums of their own; success is an
  if-and-only-if, the new state is complete, and a refusal has the error of the first check that fails.
- **The byte list** (`Borsh`, `ByteList`, `Storage`): the records' byte form, the list over an account's bytes, and the
  proof that the ledger's sequences are at every step what such operations leave in the two accounts.

How to read the proofs of the ledger: a record is in one bucket (active on a vote account, delayed cooling down, emergency
cooling down), and `Agree` says that for every bucket the sum of the records in it is what the totals say. Each kind of
change (an amount cools down, is split off, moves between validators, and so on) is shown once to keep that, and each
instruction is shown to be such a change.

## Where the code and its comments differ

- `deactivate_stake.rs:216-219` says a split exceeds twice the minimum stake. The code only makes it positive and at most
  the unstake delta. `SplitExceedsTwiceExactly` says when it does, and `SplitsLessThanMinStake` gives a run where it does not.
- `stake_reserve` answers success when it stakes nothing, so an extra run it took off `extra_stake_delta_runs` before is
  spent (`stake_reserve.rs:153-166`, `182-190`, `206-214`). The model does the same; `ExtraRunSpentExactly` says when.
- An update can lower the price on record without a slash when every mSOL has been burned. `BurnedOutUpdateLowersPrice`
  gives the run and `Restart` the exact condition.
- A first depositor owns whatever value was left under control. `FirstDepositorProfits` gives the run and
  `FirstDepositOwnsLeftovers` the exact condition.
- `stake_reserve` plans an amount that counts stake cooling down (`mod.rs:231-251`), transfers it out of the real reserve
  and then subtracts it from the virtual balance without looking at either (`stake_reserve.rs:217-236`); `claim` looks at
  the real one only (`claim.rs:102-105`, `mod.rs:257-262`). `Reserve` has the exact conditions for each to fail. On the
  virtual balance it takes lamports sent to the reserve from outside since the last update (`GiftRunsShort`) or, for
  `stake_reserve`, stake cooling down beyond what tickets are owed, which is also what it takes on the real one
  (`CoolingRunsShort`).
- `redelegate` and `partial_unstake` stop on a total target below zero (`redelegate.rs:162-164`). `MoveTargetExactly` says
  when that is, `MovesStop` gives a run, and `SolventTarget` says that it is never so in a solvent pool.

## Model

| member | source | states |
|---|---|---|
| Invariants.ReachableInv | programs/marinade-forking-smart-contract/src/state/mod.rs:185-210 | In every state a run can reach from `initialize`: records and validators agree bucket by bucket, only deactivating accounts have the emergency flag, scores add up, tickets add up, the real balances back the virtual ones and the parameters stay in their limits |
| Totals.LedgerAgreement | programs/marinade-forking-smart-contract/src/state/mod.rs:185-194 | In every reachable state each validator's active balance is the sum of its non-deactivating records, the two cooling totals are the sums of the deactivating records without and with the emergency flag, the score total is the sum of scores, and all records plus the virtual reserve are exactly what is under control |
| Invariants.StepIsSound | programs/marinade-forking-smart-contract/src/state/mod.rs:253-270 | Any step from a state with the invariant ends in one, and never fails on a subtraction from a record, a validator balance, or a stake, cooling, ticket or mSOL total, nor on the asserts of `update_active` and `deactivate_stake`. Transfers out of the reserve are the subject of `Reserve`, and a missing move target that of `MoveTargetExactly` |
| Invariants.ReachableNeverUnderflows | programs/marinade-forking-smart-contract/src/instructions/crank/update.rs:328-395 | No instruction in a reachable state fails by underflow of a validator balance, a total, a cooling total or a ticket total, nor on the asserts of `update_active` and `deactivate_stake` |
| Reserve.StakeReserveRunsShortExactly | programs/marinade-forking-smart-contract/src/instructions/crank/stake_reserve.rs:138-236 | Once every earlier check passes, staking fails on the transfer out of the real reserve if and only if the planned amount exceeds it, and on the virtual balance if and only if the amount is within the real reserve but above the virtual balance |
| Reserve.ClaimRunsShortExactly | programs/marinade-forking-smart-contract/src/instructions/delayed_unstake/claim.rs:91-140 | A ticket due to its beneficiary is paid if and only if the virtual balance covers it; the claim fails on the virtual balance if and only if only the real one does; and `TicketNotReady` is the answer if and only if neither does |
| Reserve.OnlyClaimsAndStakingRunShort | programs/marinade-forking-smart-contract/src/state/mod.rs:257-262 | No instruction other than `stake_reserve` ever asks the real reserve for more than it has, and none other than `stake_reserve` and `claim` the virtual one |
| Reserve.CloseCooledNeverShort | programs/marinade-forking-smart-contract/src/instructions/crank/update.rs:481-501 | The rent that `update_deactivated` sends out of the reserve is always covered, by both balances, whatever they were before |
| Reserve.OwedCoolingNeverShort | programs/marinade-forking-smart-contract/src/instructions/crank/stake_reserve.rs:138-236 | While delayed cooling stake is at most the tickets, the real reserve covers every amount `stake_reserve` plans |
| Reserve.UpdateAligns | programs/marinade-forking-smart-contract/src/instructions/crank/update.rs:143-158 | After any successful update the virtual balance is the real one less the rent, whatever it was before |
| Reserve.RunKeepsAligned | programs/marinade-forking-smart-contract/src/state/mod.rs:253-262 | Once the virtual balance is the real one less the rent, it stays so over every run without lamports sent to the reserve from outside |
| Reserve.GiftFreeRunsAreAligned | programs/marinade-forking-smart-contract/src/instructions/admin/initialize.rs:127-191 | So it is after every such run from creation |
| Reserve.AlignedNeverRunsShort | programs/marinade-forking-smart-contract/src/instructions/delayed_unstake/claim.rs:102-140 | While the balances are aligned, a claim never fails on either of them, nor does `stake_reserve` while delayed cooling stake is at most the tickets |
| Witnesses.GiftRunsShort | programs/marinade-forking-smart-contract/src/instructions/crank/stake_reserve.rs:123-236 | A run from creation, one validator and one gift to the reserve, after which `stake_reserve` fails on the virtual balance |
| Witnesses.CoolingRunsShort | programs/marinade-forking-smart-contract/src/instructions/crank/stake_reserve.rs:123-236 | A run from creation without gifts, with both balances aligned, after which `stake_reserve` asks the reserve for stake that is still cooling down and fails |
| Settlement.CoveredClaimsArePaid | programs/marinade-forking-smart-contract/src/instructions/delayed_unstake/claim.rs:54-140 | While the virtual balance covers the open tickets, any due claims of different tickets are all paid, in any order |
| Settlement.EveryTicketPaidExactly | programs/marinade-forking-smart-contract/src/instructions/delayed_unstake/claim.rs:54-140 | Due claims of all open tickets are all paid if and only if the virtual balance covers them together; then no ticket is left and the balance fell by just what was owed |
| Settlement.CoveredExactly | programs/marinade-forking-smart-contract/src/state/mod.rs:231-251 | With aligned balances and nothing cooling down, the tickets are covered if and only if the delta is not negative |
| Invariants.RunKeepsInv | programs/marinade-forking-smart-contract/src/state/mod.rs:185-210 | The invariant survives every sequence of instructions and outside events, failed ones included |
| Invariants.InitialState | programs/marinade-forking-smart-contract/src/instructions/admin/initialize.rs:127-191 | A newly created pool satisfies the invariant |
| Invariants.RebalanceConserves | programs/marinade-forking-smart-contract/src/state/mod.rs:190-194 | `stake_reserve`, `deactivate_stake`, `emergency_unstake`, `partial_unstake` and `redelegate` leave the lamports under control exactly unchanged and touch no token, ticket or fee |
| Solvency.SlashFreeRunsAreSolvent | programs/marinade-forking-smart-contract/src/state/mod.rs:206-228 | From creation, while no successful update sees a slash, tickets never exceed the lamports under control, V >= S, and the stored price is at least one lamport per mSOL |
| Solvency.StepKeepsSolvent | programs/marinade-forking-smart-contract/src/state/mod.rs:206-228 | One step keeps the three solvency facts, through every rounding of a mint or a burn |
| Solvency.StoredPrice | programs/marinade-forking-smart-contract/src/instructions/crank/update.rs:237-247 | With V >= S the price an update stores is at least `PRICE_DENOMINATOR`, although it is floored |
| Solvency.SolventTarget | programs/marinade-forking-smart-contract/src/instructions/crank/redelegate.rs:157-164 | In solvent states the total stake target of the moves is not negative |
| Price.StepKeepsPrice | programs/marinade-forking-smart-contract/src/state/mod.rs:206-228 | While there is mSOL, V'*S >= V*S' for every step other than a slashing update and `withdraw_stake_account` |
| Price.RunKeepsPrice | programs/marinade-forking-smart-contract/src/state/mod.rs:206-228 | The same over every run of such steps, failed instructions and outside events included |
| Price.DepositKeepsPrice | programs/marinade-forking-smart-contract/src/instructions/user/deposit.rs:119-221 | A deposit, with its partial swap at the floored rate, does not lower the price |
| Price.DepositStakeAccountKeepsPrice | programs/marinade-forking-smart-contract/src/instructions/user/deposit_stake_account.rs:256-279 | A deposited stake account, priced before its stake counts, does not lower the price |
| Price.OrderUnstakeKeepsPrice | programs/marinade-forking-smart-contract/src/instructions/delayed_unstake/order_unstake.rs:58-93 | An unstake order, with its floored value and fee, does not lower the price |
| Price.BookActiveEarns | programs/marinade-forking-smart-contract/src/instructions/crank/update.rs:296-352 | An update of an active account brings in exactly its extra lamports and rewards, and its one or two fee mints do not lower the price |
| Price.BookDeactivatedEarns | programs/marinade-forking-smart-contract/src/instructions/crank/update.rs:455-512 | An update of a cooled-down account brings in exactly what it has over its record, and its fee mint does not lower the price |
| Price.BeginNeverLowers | programs/marinade-forking-smart-contract/src/instructions/crank/update.rs:143-168 | Aligning the balances never lowers V or the virtual reserve, never raises S, never lowers the price and never trips the mint warning |
| Price.ClaimKeepsValue | programs/marinade-forking-smart-contract/src/instructions/delayed_unstake/claim.rs:115-140 | A claim leaves V and S exactly as they were, also while V is clamped to 0 |
| Witnesses.BurnedOutUpdateLowersPrice | programs/marinade-forking-smart-contract/src/instructions/crank/update.rs:143-168 | A run from creation after which all real mSOL is burned and an update that sees a reward of 1000 lamports lowers the price on record |
| Restart.UpdateActiveKeepsPriceExactly | programs/marinade-forking-smart-contract/src/instructions/crank/update.rs:269-395 | An update of an active account without a slash keeps the price if and only if there is real mSOL, or the supply its own fees restart is worth no less a share |
| Restart.UpdateDeactivatedKeepsPriceExactly | programs/marinade-forking-smart-contract/src/instructions/crank/update.rs:424-521 | The same if and only if for cooled-down accounts |
| Restart.FewFeesKeepPrice | programs/marinade-forking-smart-contract/src/instructions/crank/update.rs:269-395 | What a caller can check: with or without real mSOL left, the price is kept whenever the fees the update would mint are no more than the supply on record |
| Restart.FewFeesKeepPriceDeactivated | programs/marinade-forking-smart-contract/src/instructions/crank/update.rs:424-521 | The same for cooled-down accounts |
| Withdrawals.WithdrawIsBounded | programs/marinade-forking-smart-contract/src/instructions/user/withdraw_stake_account.rs:166-245 | Every withdrawal: it needs S > 0 and V > 0, V drops by the lamports handed out, what is burned and the fees of the treasury are exactly the mSOL given in, V'*S + V > V*S', and no loss at all without a treasury fee |
| Withdrawals.RunLosesAtMost | programs/marinade-forking-smart-contract/src/instructions/user/withdraw_stake_account.rs:166-245 | Over any run without a slash, with mSOL to price at every other step, k withdrawals that each leave at least m >= k of mSOL lower the price by at most k parts out of m, all other steps included |
| Withdrawals.FeesNeverSaturate | programs/marinade-forking-smart-contract/src/instructions/user/withdraw_stake_account.rs:210-216 | Pricing the split lamports back never asks for more mSOL than was given in, so the saturating subtraction never saturates |
| Withdrawals.WithdrawNeedsValue | programs/marinade-forking-smart-contract/src/instructions/user/withdraw_stake_account.rs:165-189 | Handing lamports out for mSOL needs S > 0 and V > 0 |
| RoundTrips.DepositThenOrderNeverProfits | programs/marinade-forking-smart-contract/src/instructions/user/deposit.rs:120-201 | With S > 0, a deposit of D in any mix of swap and mint, then an order of all mSOL received, gives a ticket of at most D lamports |
| RoundTrips.FirstDepositOwnsLeftovers | programs/marinade-forking-smart-contract/src/calc.rs:24-31 | With S = 0 that holds if and only if D is 0 or the value left behind is no more than the fee |
| Witnesses.FirstDepositorProfits | programs/marinade-forking-smart-contract/src/calc.rs:24-31 | A run from creation after which a deposit of one lamport and an order of what it bought give a ticket for a SOL and one lamport |
| RoundTrips.DepositDelivers | programs/marinade-forking-smart-contract/src/instructions/user/deposit.rs:120-221 | The depositor receives exactly the mSOL ordered, from the pool's leg and by minting |
| PoolShares.AddThenRemoveNeverProfits | programs/marinade-forking-smart-contract/src/instructions/liq_pool/add_liquidity.rs:101-149 | With LP shares out, adding D lamports and burning the shares received pays back at most D, mSOL at its worth, although shares come from a floored pool value |
| PoolShares.AddLiquidityKeepsShareValue | programs/marinade-forking-smart-contract/src/instructions/liq_pool/add_liquidity.rs:102-114 | Adding liquidity adds exactly the deposit to the floored pool value and does not lower it per share |
| PoolShares.RemoveLiquidityKeepsLegs | programs/marinade-forking-smart-contract/src/instructions/liq_pool/remove_liquidity.rs:92-101 | Removing liquidity lowers neither leg per remaining share |
| PoolShares.DepositKeepsPoolValue | programs/marinade-forking-smart-contract/src/instructions/user/deposit.rs:128-175 | A deposit, filled by the pool in full, in part or not at all, does not lower the floored pool value |
| PoolShares.LiquidUnstakeKeepsPoolValue | programs/marinade-forking-smart-contract/src/instructions/liq_pool/liquid_unstake.rs:80-164 | A liquid unstake does not lower the floored pool value, treasury cut included |
| Dilution.StepKeepsShares | programs/marinade-forking-smart-contract/src/instructions/liq_pool/add_liquidity.rs:101-149 | What an LP share is exactly worth, mSOL at the exact price, falls in no step other than a slash or a withdrawal, except in a deposit or an addition of liquidity by at most one lamport of the whole pool |
| Dilution.SharesLoseAtMost | programs/marinade-forking-smart-contract/src/instructions/liq_pool/add_liquidity.rs:101-149 | Over a run without slashes and withdrawals, with never fewer than m shares and k deposits or additions, an LP share loses at most k / m lamports of its exact worth |
| Dilution.DepositWorth | programs/marinade-forking-smart-contract/src/instructions/user/deposit.rs:128-175 | A deposit, its partial fill at the floored rate included, takes at most one lamport off the exact worth of the pool |
| UserBooks.UnstakeFeeInRange | programs/marinade-forking-smart-contract/src/state/liq_pool.rs:60-77 | The liquid unstake fee is always found and lies between the minimum and the maximum fee |
| UserBooks.SwapCostsAtMostDeposit | programs/marinade-forking-smart-contract/src/instructions/user/deposit.rs:128-182 | The lamports paid for the swapped part never exceed the deposit, so what is left to deposit never underflows |
| UserBooks.ShareAtMost | programs/marinade-forking-smart-contract/src/instructions/liq_pool/remove_liquidity.rs:92-101 | A proportional payout never exceeds the leg it is paid from |
| Redelegation.RedelegationStops | programs/marinade-forking-smart-contract/src/instructions/crank/redelegate.rs:157-341 | Of any redelegations that follow one another, with or without a total target, at most as many of records that hold lamports are effective as lamports the validators were off their targets at the start |
| Redelegation.MoveConverges | programs/marinade-forking-smart-contract/src/instructions/crank/redelegate.rs:171-315 | An effective redelegation leaves every target unchanged and, for a record with lamports, strictly lowers the sum of distances to target |
| Redelegation.MoveCloser | programs/marinade-forking-smart-contract/src/instructions/crank/redelegate.rs:188-263 | The arithmetic of it, also when the whole account overshoots by less than the minimum stake |
| Redelegation.RedelegateMoves | programs/marinade-forking-smart-contract/src/instructions/crank/redelegate.rs:102-341 | Every successful call either changes nothing or moves the effective amount between two validators, one at least a minimum stake over and one at least that under target |
| Scheduler.TargetsSum | programs/marinade-forking-smart-contract/src/state/validator_system.rs:262-275 | The stake targets add up to at most the total target, and to more than it less one lamport per validator |
| Scheduler.TargetExists | programs/marinade-forking-smart-contract/src/state/validator_system.rs:262-275 | Every listed validator has a target, at most the total |
| Scheduler.SomeValidatorTakesStake | programs/marinade-forking-smart-contract/src/instructions/crank/stake_reserve.rs:138-216 | With a delta of a minimum stake per validator, some validator passes the amount checks of `stake_reserve` |
| Scheduler.SomeValidatorGivesStake | programs/marinade-forking-smart-contract/src/instructions/crank/deactivate_stake.rs:119-157 | With a negative delta and active stake, some validator is strictly over its unstake target |
| Progress.SomeActiveRecord | programs/marinade-forking-smart-contract/src/state/mod.rs:190-194 | A validator with active stake has an active record that holds some of it |
| Progress.SomeUnstakeCools | programs/marinade-forking-smart-contract/src/instructions/crank/deactivate_stake.rs:86-309 | With a negative delta, active stake, up-to-date records and room for a split, some call of `deactivate_stake` succeeds and makes more stake cool down |
| Scheduler.MoveTargetExactly | programs/marinade-forking-smart-contract/src/instructions/crank/redelegate.rs:157-164 | The total target of a move is refused if and only if the tickets exceed active stake, cooling stake and the real reserve together, or the sum does not fit u64 |
| Witnesses.MovesStop | programs/marinade-forking-smart-contract/src/instructions/crank/redelegate.rs:157-164 | A run from creation, with a slash while all mSOL is ordered, after which `redelegate` and `partial_unstake` stop on a total target below zero |
| CrankLimits.StakeReserveLimits | programs/marinade-forking-smart-contract/src/instructions/crank/stake_reserve.rs:124-301 | A staking call stakes between the minimum stake and the delta, takes exactly that off the delta, leaves a delta of 0 or at least the minimum stake, and the validator below target plus the minimum stake; any other success leaves records and delta alone |
| CrankLimits.ReservePlanExactly | programs/marinade-forking-smart-contract/src/instructions/crank/stake_reserve.rs:136-216 | Nothing is staked if and only if the validator is at its target, the delta is below the minimum stake, or the gap is and would not leave dust; otherwise the whole delta if less than the minimum stake would be left of it, else the whole gap |
| CrankLimits.ExtraRunSpentExactly | programs/marinade-forking-smart-contract/src/instructions/crank/stake_reserve.rs:153-216 | A success that stakes nothing changes nothing or spends an extra run, and the latter if and only if the validator was staked to this epoch, a run is left and there is nothing to stake to it |
| CrankLimits.StakeReserveStops | programs/marinade-forking-smart-contract/src/instructions/crank/stake_reserve.rs:124-301 | Of any calls that follow one another, each effective one uses up a minimum stake of the delta, so there are at most delta / min_stake |
| CrankLimits.DeactivateStakeLimits | programs/marinade-forking-smart-contract/src/instructions/crank/deactivate_stake.rs:119-291 | A successful call does nothing, or splits off an amount that moves the delta to exactly delta + amount <= 0, leaving twice the minimum stake in the account and the validator at or above target, or takes the whole account, overshooting delta and target by less than twice the minimum stake |
| CrankLimits.DeactivatePlanLimits | programs/marinade-forking-smart-contract/src/instructions/crank/deactivate_stake.rs:137-236 | The choice between nothing, the whole account and a split, and the bounds of each |
| CrankLimits.DeactivatePlanExactly | programs/marinade-forking-smart-contract/src/instructions/crank/deactivate_stake.rs:126-224 | When each is chosen: nothing at or under target or for a second split in an epoch, the whole account if less than twice the minimum stake would stay, otherwise a split of exactly the smaller of excess and delta |
| CrankLimits.SplitExceedsTwiceExactly | programs/marinade-forking-smart-contract/src/instructions/crank/deactivate_stake.rs:216-224 | A split exceeds twice the minimum stake if and only if both the excess of the validator and the delta do |
| Witnesses.SplitsLessThanMinStake | programs/marinade-forking-smart-contract/src/instructions/crank/deactivate_stake.rs:216-224 | A run from creation after which a split is less than the minimum stake |
| CrankLimits.DeactivateStakeStops | programs/marinade-forking-smart-contract/src/instructions/crank/deactivate_stake.rs:119-291 | Of any calls that follow one another, at most as many are effective as lamports to unstake, and together they cool down exactly what comes off that, or end it overshooting by less than twice the minimum stake |
| CrankLimits.PartialPlanLimits | programs/marinade-forking-smart-contract/src/instructions/management/partial_unstake.rs:120-216 | Nothing within a minimum stake of the target; a split of the desired amount or exactly down to the target, leaving a minimum stake; or the whole account, less than a minimum stake past both |
| CrankLimits.PartialUnstakeLimits | programs/marinade-forking-smart-contract/src/instructions/management/partial_unstake.rs:83-275 | The same of the whole call: which amount cools down, what stays in the account and what the validator keeps |
| CrankLimits.RedelegatePlanExactly | programs/marinade-forking-smart-contract/src/instructions/crank/redelegate.rs:157-231 | Nothing if and only if the smaller of excess and room is below the minimum stake; otherwise exactly that, or the whole account if less than a minimum stake would stay in it |
| CrankLimits.CoolingRaisesDelta | programs/marinade-forking-smart-contract/src/state/mod.rs:231-251 | Cooling down at most the unstake delta raises the delta by exactly that, also with emergency stake cooling down |
| CrankBooks.DeactivatePlanBounds | programs/marinade-forking-smart-contract/src/instructions/crank/deactivate_stake.rs:216-224 | The internal assert before a split never fires, and the split is positive and within the account |
| MoveCap.StakeMovedFromCreation | programs/marinade-forking-smart-contract/src/state/mod.rs:272-285 | On a clock that does not go back, stake_moved is always exactly what emergency unstakes, partial unstakes and redelegations moved in last_stake_move_epoch |
| MoveCap.CounterIsExact | programs/marinade-forking-smart-contract/src/state/mod.rs:272-285 | The same from any state, on top of what the counter started with |
| MoveCap.MoverCounts | programs/marinade-forking-smart-contract/src/instructions/management/partial_unstake.rs:247-255 | Each effective mover adds exactly what it moved and stays within the configured share of the total, which it leaves unchanged |
| MoveCap.MovedWithinControl | programs/marinade-forking-smart-contract/src/state/mod.rs:272-285 | With the share at no more than 100%, the counter never exceeds what is under control |
| Flows.RunConservesTicket | programs/marinade-forking-smart-contract/src/instructions/delayed_unstake/claim.rs:54-140 | Over any run, for every ticket account: paid plus still open is ordered plus open before, so each ticket is paid at most once and in full |
| Flows.ClaimPaysInFull | programs/marinade-forking-smart-contract/src/instructions/delayed_unstake/claim.rs:91-140 | A claim pays exactly the ticket's lamports to its beneficiary, not before its epoch, from both reserve balances, and closes the ticket |
| Flows.ReserveIsBacked | programs/marinade-forking-smart-contract/src/instructions/crank/update.rs:143-158 | In every reachable state the real reserve covers the virtual balance and the rent, aligning never lowers the virtual balance, and after every update they are equal |
| UserBooks.TicketSumRemove | programs/marinade-forking-smart-contract/src/instructions/delayed_unstake/claim.rs:115-120 | The sum of open tickets is the claimed one plus the rest, in whatever order they are taken |
| Invariants.ClaimKeepsFunds | programs/marinade-forking-smart-contract/src/instructions/delayed_unstake/claim.rs:91-140 | A claim keeps the ticket balance the sum and the ticket count the number of open tickets |
| Invariants.OrderUnstakeKeepsFunds | programs/marinade-forking-smart-contract/src/instructions/delayed_unstake/order_unstake.rs:77-107 | So does an unstake order |
| UserEffects.DepositExactly | programs/marinade-forking-smart-contract/src/instructions/user/deposit.rs:85-201 | The mSOL bought is the floor of the deposit at the rate before it (the deposit itself without supply or value); the leg sells what it has of it, for the whole deposit or the floored worth of its part; the rest goes to the reserve and is minted. Succeeds if and only if the listed checks pass, and this is the whole new state |
| UserEffects.DepositStakeAccountExactly | programs/marinade-forking-smart-contract/src/instructions/user/deposit_stake_account.rs:79-279 | The same for a stake account: its stake buys the floor at the rate before it, and it is recorded with this epoch |
| UserEffects.WithdrawStakeAccountExactly | programs/marinade-forking-smart-contract/src/instructions/user/withdraw_stake_account.rs:104-301 | The account, its record, its validator and the total lose the floored value of the mSOL less its fee in millionths, rounded down; burned is what that would buy back, or all of it without a treasury. If and only if the listed checks pass, and this is the whole new state |
| UserEffects.OrderUnstakeExactly | programs/marinade-forking-smart-contract/src/instructions/delayed_unstake/order_unstake.rs:42-107 | The ticket is for the floored value less its fee in millionths, due this epoch, or the next once stake-delta has begun. If and only if the listed checks pass, and this is the whole new state |
| UserEffects.ClaimExactly | programs/marinade-forking-smart-contract/src/instructions/delayed_unstake/claim.rs:54-140 | A ticket is paid if and only if its beneficiary claims it from its epoch on, a second after that began, and the virtual balance covers it; the whole new state |
| PoolEffects.LiquidUnstakeExactly | programs/marinade-forking-smart-contract/src/instructions/liq_pool/liquid_unstake.rs:60-164 | With the fee for the liquidity left, the pool pays the floored worth of the mSOL less the floored fee, and keeps all mSOL but the floored cut of the treasury. If and only if the listed checks pass, and this is the whole new state |
| PoolEffects.FeeFallsWithLiquidity | programs/marinade-forking-smart-contract/src/state/liq_pool.rs:60-77 | More liquidity never means a higher fee |
| PoolEffects.FeeWithoutLiquidity | programs/marinade-forking-smart-contract/src/state/liq_pool.rs:67-77 | At no liquidity the line of fees is at its maximum |
| PoolEffects.AddLiquidityExactly | programs/marinade-forking-smart-contract/src/instructions/liq_pool/add_liquidity.rs:65-149 | Shares are the floor of the deposit at the value of both legs before it, and both supplies end equal. If and only if the listed checks pass, and this is the whole new state |
| PoolEffects.RemoveLiquidityExactly | programs/marinade-forking-smart-contract/src/instructions/liq_pool/remove_liquidity.rs:68-164 | Both legs pay the floor of their part for the tokens, out of the smaller of the two supplies, and both supplies lose the tokens. If and only if the listed checks pass, and this is the whole new state |
| UpdateEffects.StoredPriceExactly | programs/marinade-forking-smart-contract/src/instructions/crank/update.rs:237-247 | After every successful update, slashes included, the stored price is the floor of `PRICE_DENOMINATOR` times what is left when all tickets are paid, by the supply, or `PRICE_DENOMINATOR` without supply |
| UpdateEffects.UpdateActiveExactly | programs/marinade-forking-smart-contract/src/instructions/crank/update.rs:269-395 | Extra lamports go to the reserve, the delegation to record, validator and total, up or down; both fees are floors at the value before each. If and only if everything fits u64, and this is the whole new state |
| UpdateEffects.UpdateDeactivatedExactly | programs/marinade-forking-smart-contract/src/instructions/crank/update.rs:424-528 | All lamports but the rent go to the reserve, record and account go, and the cooling total of its kind loses the record. If and only if everything fits u64, and this is the whole new state |
| UpdateEffects.UpdateActiveNeeds | programs/marinade-forking-smart-contract/src/instructions/crank/update.rs:269-293 | What an update of an active account asks of the record, the validator and the account |
| UpdateEffects.UpdateDeactivatedNeeds | programs/marinade-forking-smart-contract/src/instructions/crank/update.rs:424-446 | What an update of a cooled-down account asks of the record and the account |
| CrankEffects.MoveIsCapped | programs/marinade-forking-smart-contract/src/state/mod.rs:272-285 | A move is refused if and only if the counter, which starts again in a new epoch, would exceed the floored share of all lamports |
| CrankEffects.CapFits | programs/marinade-forking-smart-contract/src/state/mod.rs:272-285 | With a share of at most 100% the cap is at most all lamports and nothing is cut off it |
| CrankEffects.StakeReserveNeeds | programs/marinade-forking-smart-contract/src/instructions/crank/stake_reserve.rs:96-152 | What a success of `stake_reserve` asks of the new account and the validator |
| CrankEffects.DeactivateStakeNeeds | programs/marinade-forking-smart-contract/src/instructions/crank/deactivate_stake.rs:86-146 | What a success of `deactivate_stake` asks of record, account, validator and delta |
| CrankEffects.PartialUnstakeNeeds | programs/marinade-forking-smart-contract/src/instructions/management/partial_unstake.rs:83-126 | What a success of `partial_unstake` asks of record, account, validator and total target |
| CrankEffects.RedelegateNeeds | programs/marinade-forking-smart-contract/src/instructions/crank/redelegate.rs:102-164 | What a success of `redelegate` asks of record, account, validators and total target |
| CrankEffects.StakeReserveExactly | programs/marinade-forking-smart-contract/src/instructions/crank/stake_reserve.rs:96-301 | Whether anything is staked, how much, the extra run it takes, and the whole new state, the validator marked for this epoch |
| CrankEffects.DeactivateStakeExactly | programs/marinade-forking-smart-contract/src/instructions/crank/deactivate_stake.rs:86-309 | Which of the outcomes a call has, by target, delta, account and epoch |
| CrankEffects.WholeStoppedIs | programs/marinade-forking-smart-contract/src/instructions/crank/deactivate_stake.rs:174-198 | The whole account cools down: if and only if it is active and the total fits u64, and the whole new state |
| CrankEffects.PartStoppedIs | programs/marinade-forking-smart-contract/src/instructions/crank/deactivate_stake.rs:199-309 | A part cools down in its own account and record, and the validator is marked for this epoch: when, and the whole new state |
| CrankEffects.EmergencyUnstakeExactly | programs/marinade-forking-smart-contract/src/instructions/management/emergency_unstake.rs:51-130 | Which accounts may be unstaked in emergency, if and only if, and the whole new state with the flag and the counter |
| CrankEffects.PartialUnstakeExactly | programs/marinade-forking-smart-contract/src/instructions/management/partial_unstake.rs:83-216 | Which of the outcomes a call has, by target, desired amount and account |
| CrankEffects.WholeFlaggedIs | programs/marinade-forking-smart-contract/src/instructions/management/partial_unstake.rs:148-176 | The whole account cools down in emergency within the cap: when, and the whole new state |
| CrankEffects.PartFlaggedIs | programs/marinade-forking-smart-contract/src/instructions/management/partial_unstake.rs:177-275 | A part does, in its own account and flagged record: when, and the whole new state |
| CrankEffects.RedelegateExactly | programs/marinade-forking-smart-contract/src/instructions/crank/redelegate.rs:102-263 | Which of the outcomes a call has, by both targets and the account |
| CrankEffects.WholeMovedIs | programs/marinade-forking-smart-contract/src/instructions/crank/redelegate.rs:264-341 | The whole account moves to another validator within the cap: when, and the whole new state |
| CrankEffects.PartMovedIs | programs/marinade-forking-smart-contract/src/instructions/crank/redelegate.rs:264-452 | A part does, through a split account that stays behind with a record without lamports: when, and the whole new state |
| CrankEffects.MergeStakesExactly | programs/marinade-forking-smart-contract/src/instructions/crank/merge_stakes.rs:63-230 | Two accounts of one validator become one: if and only if the listed checks pass, and the whole new state |
| AdminEffects.AddValidatorExactly | programs/marinade-forking-smart-contract/src/instructions/management/add_validator.rs:50-72 | When a validator is added, and the whole new state |
| AdminEffects.RemoveValidatorExactly | programs/marinade-forking-smart-contract/src/state/validator_system.rs:207-226 | When a validator is removed, and the whole new state |
| AdminEffects.SetValidatorScoreExactly | programs/marinade-forking-smart-contract/src/instructions/management/set_validator_score.rs:27-47 | When a score is set, and the whole new state |
| AdminEffects.ConfigMarinadeExactly | programs/marinade-forking-smart-contract/src/instructions/admin/config_marinade.rs:39-234 | Given parameters are taken over and others stay, if and only if the given ones are within their limits |
| AdminEffects.ConfigLpExactly | programs/marinade-forking-smart-contract/src/instructions/admin/config_lp.rs:28-84 | The same for the liquidity pool, with the limits on the fees that result |
| AdminEffects.SwitchesExactly | programs/marinade-forking-smart-contract/src/instructions/admin/emergency_pause.rs:21-38 | Pausing and resuming undo each other, and each is refused when there is nothing to do |
| AdminEffects.InitializeRefusals | programs/marinade-forking-smart-contract/src/instructions/admin/initialize.rs:127-150 | The error of refused parameters of a new pool |
| AdminEffects.InitializeExactly | programs/marinade-forking-smart-contract/src/instructions/admin/initialize.rs:127-191 | Which parameters a pool is created with, and everything it starts with |
| Refusals.UnregisteredMsolRefused | programs/marinade-forking-smart-contract/src/instructions/user/deposit.rs:111-116 | A deposit is refused once there is more mSOL about than the pool knows of |
| Refusals.DepositRefusals | programs/marinade-forking-smart-contract/src/instructions/user/deposit.rs:85-175 | The error of a refused deposit is that of the first check that fails |
| Refusals.WithdrawStakeAccountRefusals | programs/marinade-forking-smart-contract/src/instructions/user/withdraw_stake_account.rs:104-208 | The same for a withdrawn stake account |
| Refusals.ClaimRefusals | programs/marinade-forking-smart-contract/src/instructions/delayed_unstake/claim.rs:54-140 | The same for a claim |
| Refusals.LiquidUnstakeRefusals | programs/marinade-forking-smart-contract/src/instructions/liq_pool/liquid_unstake.rs:60-116 | The same for a liquid unstake |
| Rates.FloorsOnce | programs/marinade-forking-smart-contract/src/calc.rs:11-18 | A rounded-down quotient, given by its two inequalities, exists and is unique, so the amounts in the exact theorems always do |
| UpdateEffects.BeginIsResynced | programs/marinade-forking-smart-contract/src/instructions/crank/update.rs:137-168 | What an update starts from, in every state: the balances as they really are, and no more stake taken once there is more mSOL about than the pool knows of |
| AdminEffects.ConfigMarinadeRefusals | programs/marinade-forking-smart-contract/src/instructions/admin/config_marinade.rs:39-234 | The error of refused parameters is that of the first one over its limit |
| AdminEffects.PoolRefusals | programs/marinade-forking-smart-contract/src/state/liq_pool.rs:101-133 | The same for a liquidity pool |
| Refusals.DepositStakeAccountRefusals | programs/marinade-forking-smart-contract/src/instructions/user/deposit_stake_account.rs:79-279 | The same for a deposited stake account |
| Refusals.OrderUnstakeRefusals | programs/marinade-forking-smart-contract/src/instructions/delayed_unstake/order_unstake.rs:42-77 | The same for an unstake order |
| Refusals.AddLiquidityRefusals | programs/marinade-forking-smart-contract/src/instructions/liq_pool/add_liquidity.rs:65-104 | The same for added liquidity |
| Refusals.RemoveLiquidityRefusals | programs/marinade-forking-smart-contract/src/instructions/liq_pool/remove_liquidity.rs:68-112 | The same for removed liquidity |
| Refusals.StakeReserveRefusals | programs/marinade-forking-smart-contract/src/instructions/crank/stake_reserve.rs:96-173 | The same for staking the reserve, or success without staking |
| Refusals.DeactivateStakeRefusals | programs/marinade-forking-smart-contract/src/instructions/crank/deactivate_stake.rs:86-146 | The same for unstaking, up to the target |
| Refusals.PartialUnstakeRefusals | programs/marinade-forking-smart-contract/src/instructions/management/partial_unstake.rs:83-126 | The same for a partial unstake, up to its target |
| Refusals.MergeStakesRefusals | programs/marinade-forking-smart-contract/src/instructions/crank/merge_stakes.rs:63-165 | The same for a merge |
| Refusals.UpdateActiveRefusals | programs/marinade-forking-smart-contract/src/instructions/crank/update.rs:269-300 | The same for an update of an active account, up to the amounts |
| Refusals.UpdateDeactivatedRefusals | programs/marinade-forking-smart-contract/src/instructions/crank/update.rs:424-456 | The same for an update of a cooled-down account, up to the amounts |
| Refusals.RedelegateRefusals | programs/marinade-forking-smart-contract/src/instructions/crank/redelegate.rs:102-164 | The same for a redelegation, up to its targets |
| Refusals.EmergencyUnstakeRefusals | programs/marinade-forking-smart-contract/src/instructions/management/emergency_unstake.rs:51-100 | The same for an emergency unstake, the cap included |
| UpdateBooks.ObservedExactly | programs/marinade-forking-smart-contract/src/instructions/crank/update.rs:326-360 | Rewards and slashes move the validator and the total by exactly the observed difference: neither saturating subtraction of a slash saturates |
| UpdateBooks.LeaveCoolingIsExact | programs/marinade-forking-smart-contract/src/instructions/crank/update.rs:503-512 | What a cooling record holds is always covered by its cooling total |
| UpdateBooks.UpdateActiveIsSound | programs/marinade-forking-smart-contract/src/instructions/crank/update.rs:269-395 | An update of an active account keeps the books, never trips its final assert and aligns both virtual balances with the real ones |
| UpdateBooks.UpdateDeactivatedIsSound | programs/marinade-forking-smart-contract/src/instructions/crank/update.rs:424-528 | The same for a cooled-down account, which leaves the list |
| CrankBooks.StakeReserveIsSound | programs/marinade-forking-smart-contract/src/instructions/crank/stake_reserve.rs:96-301 | Staking the reserve keeps the books and what is under control |
| CrankBooks.DeactivateStakeIsSound | programs/marinade-forking-smart-contract/src/instructions/crank/deactivate_stake.rs:86-309 | Unstaking keeps the books and what is under control, without underflow |
| CrankBooks.EmergencyUnstakeIsSound | programs/marinade-forking-smart-contract/src/instructions/management/emergency_unstake.rs:51-130 | An emergency unstake keeps the books and what is under control, without underflow |
| CrankBooks.PartialUnstakeIsSound | programs/marinade-forking-smart-contract/src/instructions/management/partial_unstake.rs:83-275 | A partial unstake keeps the books and what is under control, without underflow |
| CrankBooks.RedelegateIsSound | programs/marinade-forking-smart-contract/src/instructions/crank/redelegate.rs:102-341 | A redelegation, whole or split, with its records without lamports, keeps the books and what is under control |
| CrankBooks.MergeStakesIsSound | programs/marinade-forking-smart-contract/src/instructions/crank/merge_stakes.rs:63-210 | A merge keeps the books through the swap-removal, and adds to control exactly the rent that became stake |
| CrankBooks.FoundCovered | programs/marinade-forking-smart-contract/src/checks.rs:88-115 | A record that passed the amount and validator check is covered by its validator's balance and by the total |
| UserBooks.DepositStakeAccountIsSound | programs/marinade-forking-smart-contract/src/instructions/user/deposit_stake_account.rs:79-279 | A deposited stake account keeps the books |
| UserBooks.WithdrawStakeAccountIsSound | programs/marinade-forking-smart-contract/src/instructions/user/withdraw_stake_account.rs:104-301 | A withdrawn stake account keeps the books, without underflow |
| UserBooks.SetValidatorScoreIsSound | programs/marinade-forking-smart-contract/src/instructions/management/set_validator_score.rs:27-47 | A new score keeps the score total the sum of scores |
| UserBooks.AddValidatorIsSound | programs/marinade-forking-smart-contract/src/instructions/management/add_validator.rs:50-72 | A new validator keeps the books and distinct votes |
| UserBooks.RemoveValidatorIsSound | programs/marinade-forking-smart-contract/src/state/validator_system.rs:207-226 | A removed validator keeps the books through the swap-removal |
| Ledger.ActiveCovered | programs/marinade-forking-smart-contract/src/state/mod.rs:190-194 | An active record is at most its validator's balance, which is at most the total |
| Sums.SumRemove | programs/marinade-forking-smart-contract/src/state/list.rs:116-131 | A swap-removal lowers any sum over the list by exactly the removed item's weight |
| Calc.ProportionalIsFloor | programs/marinade-forking-smart-contract/src/calc.rs:11-18 | The result is q if and only if q is the floor of the exact quotient and fits u64 |
| Calc.SharesRoundTrip | programs/marinade-forking-smart-contract/src/calc.rs:20-31 | Shares bought with a value are worth at most that value again, and short of it by less than one share and one lamport together |
| Calc.ValueRoundTrip | programs/marinade-forking-smart-contract/src/calc.rs:20-31 | Shares valued and bought back, in whole or in part, never grow |
| Calc.PortionExact | programs/marinade-forking-smart-contract/src/state/fee.rs:43-46 | The unchecked cast in a fee loses nothing, for every u64 amount, if and only if the fee is at most 100% |
| Calc.PortionAtMost | programs/marinade-forking-smart-contract/src/state/fee.rs:109-112 | A fee of at most 100% never exceeds what it is taken from |
| Borsh.StakeRoundTrip | programs/marinade-forking-smart-contract/src/state/stake_system.rs:8-14 | A stake record takes 49 bytes and is read back from them, whatever follows |
| Borsh.StakeBytesRoundTrip | programs/marinade-forking-smart-contract/src/state/stake_system.rs:8-14 | Bytes are read if and only if there are 49 of them, and then they are the form of what is read |
| Borsh.ValidatorRoundTrip | programs/marinade-forking-smart-contract/src/state/validator_system.rs:8-18 | A validator record takes 53 bytes and is read back from them, whatever follows |
| Borsh.ValidatorBytesRoundTrip | programs/marinade-forking-smart-contract/src/state/validator_system.rs:8-18 | Bytes are read if and only if there are 53 of them, and then they are the form of what is read |
| ByteList.RoomAsAsked | programs/marinade-forking-smart-contract/src/state/list.rs:37-43 | An account of the length asked for a count has room for exactly that count |
| ByteList.SlotFits | programs/marinade-forking-smart-contract/src/state/list.rs:73-88 | Every slot within the capacity lies within the account, and its offset within u32 |
| ByteList.SlotsPatched | programs/marinade-forking-smart-contract/src/state/list.rs:93-101 | Writing at a slot's offset changes that slot's front and no other slot |
| ByteList.OperationRefines | programs/marinade-forking-smart-contract/src/state/list.rs:84-131 | One operation on the bytes answers like the operation on a sequence, and the bytes then read as its result |
| ByteList.RunRefines | programs/marinade-forking-smart-contract/src/state/list.rs:84-131 | So does any run of get, set, push and remove, with any lawful record form in slots at least as long |
| ByteList.StakeListRefines | programs/marinade-forking-smart-contract/src/state/stake_system.rs:155-208 | From an empty account on, a list of stake records behaves as a sequence |
| ByteList.ValidatorListRefines | programs/marinade-forking-smart-contract/src/state/validator_system.rs:170-260 | So does a list of validator records |
| Storage.StepEditsLists | programs/marinade-forking-smart-contract/src/state/stake_system.rs:155-208 | Every instruction and outside event changes each list by at most three get, set, push and remove operations that succeed |
| Storage.ListsStorable | programs/marinade-forking-smart-contract/src/state/stake_system.rs:8-14 | In states with the invariant every record of either list fits its byte form |
| Storage.StepOnBytes | programs/marinade-forking-smart-contract/src/state/list.rs:84-131 | If the two accounts read as the lists of the ledger, then for every step at most three byte operations on each, all of which succeed, make them read as its lists after the step |
| Storage.RunOnBytes | programs/marinade-forking-smart-contract/src/state/list.rs:84-131 | If the two accounts read as the lists of a new pool, then in every state of a run from it both lists are what byte operations that all succeed have left in the accounts |
| Storage.CreatedOnBytes | programs/marinade-forking-smart-contract/src/state/list.rs:45-131 | And two freshly initialised accounts with the room promised at creation are such |
| Storage.BytesAnswerForLedger | programs/marinade-forking-smart-contract/src/state/validator_system.rs:170-206 | Reads, index errors and the overflow of a full list are the same on the bytes as on the lists of the ledger |
| ByteList.List.InitAccount | programs/marinade-forking-smart-contract/src/state/list.rs:45-59 | An account too short or already marked is refused and unchanged; otherwise exactly its first 8 bytes become the discriminator |
| ByteList.List.Read | programs/marinade-forking-smart-contract/src/state/list.rs:84-91 | The item of a slot in use, or the index error |
| ByteList.List.Set | programs/marinade-forking-smart-contract/src/state/list.rs:93-101 | Overwrites one slot; the discriminator, the other slots and the bytes after the last slot stay |
| ByteList.List.Push | programs/marinade-forking-smart-contract/src/state/list.rs:103-114 | Overwrites the first free slot, or fails with the capacity or overflow error |
| ByteList.List.Remove | programs/marinade-forking-smart-contract/src/state/list.rs:116-131 | The last slot in use takes the freed place |
| Marinade.Program.Execute | programs/marinade-forking-smart-contract/src/state/mod.rs:24-94 | One transaction of the step-by-step program is exactly one step of the state machine, with its error: a failed instruction leaves no trace, the invariant is kept, and it never fails on a subtraction or an assert about the books |
| Marinade.Program.StakeReserve | programs/marinade-forking-smart-contract/src/instructions/crank/stake_reserve.rs:96-301 | Spends an extra run if the validator was staked to this epoch, then takes the planned amount out of both reserve balances into a new stake account, record, validator balance and total, exactly as `Cranks.StakeReserve`, or fails with its error |
| Marinade.Program.DeactivateStake | programs/marinade-forking-smart-contract/src/instructions/crank/deactivate_stake.rs:86-309 | Checks, plans, and cools down the whole account or a new split of it, exactly as `Cranks.DeactivateStake`, or fails with its error |
| Marinade.Program.CoolDown | programs/marinade-forking-smart-contract/src/instructions/crank/deactivate_stake.rs:286-309 | Moves an amount from active to delayed cooling down in both records and both totals |
| Marinade.Program.EmergencyUnstake | programs/marinade-forking-smart-contract/src/instructions/management/emergency_unstake.rs:51-130 | Counts the move, deactivates the account, flags the record and moves its lamports from active to emergency cooling down, exactly as `Cranks.EmergencyUnstake`, or fails with its error |
| Marinade.Program.PartialUnstake | programs/marinade-forking-smart-contract/src/instructions/management/partial_unstake.rs:83-275 | Deactivates the whole account or a flagged split of at most the desired amount and what the validator has over target, exactly as `Cranks.PartialUnstake`, or fails with its error |
| Marinade.Program.StakeHasMoved | programs/marinade-forking-smart-contract/src/state/mod.rs:272-285 | Restarts the counter in a new epoch, adds, and checks the cap |
| Marinade.Program.Redelegate | programs/marinade-forking-smart-contract/src/instructions/crank/redelegate.rs:102-341 | Moves the planned amount between two validators: the old record keeps the rest, the new account's record takes it, both balances follow, exactly as `Cranks.Redelegate`, or fails with its error |
| Marinade.Program.RedelegatePart | programs/marinade-forking-smart-contract/src/instructions/crank/redelegate.rs:398-452 | Splits first, with a record without lamports for the split account, then moves |
| Marinade.Program.MergeStakes | programs/marinade-forking-smart-contract/src/instructions/crank/merge_stakes.rs:63-230 | Sets the destination record to the merged stake, swap-removes the source record and books rent that became stake, exactly as `Cranks.MergeStakes`, or fails with its error |
| Marinade.Program.UpdateActive | programs/marinade-forking-smart-contract/src/instructions/crank/update.rs:269-395 | Aligns the balances, books extra lamports, rewards or a slash with their fees, stores the price and asserts the reserve, exactly as `Cranks.UpdateActive`, or fails with its error |
| Marinade.Program.UpdateDeactivated | programs/marinade-forking-smart-contract/src/instructions/crank/update.rs:424-528 | Aligns the balances, mints the fee, empties the account into the reserve, takes it out of its cooling total and drops its record, exactly as `Cranks.UpdateDeactivated`, or fails with its error |
| Marinade.Program.Begin | programs/marinade-forking-smart-contract/src/instructions/crank/update.rs:137-168 | Aligns the virtual reserve balance and mSOL supply with the real ones |
| Marinade.Program.Deposit | programs/marinade-forking-smart-contract/src/instructions/user/deposit.rs:89-221 | Sells from the pool's leg first, puts what is left of the deposit in the reserve and mints what is left of the order, exactly as `Users.Deposit`, or fails with its error |
| Marinade.Program.DepositStakeAccount | programs/marinade-forking-smart-contract/src/instructions/user/deposit_stake_account.rs:79-279 | Raises the validator, adds the record, mints at the price before the stake counts, then raises the total, exactly as `Users.DepositStakeAccount`, or fails with its error |
| Marinade.Program.WithdrawStakeAccount | programs/marinade-forking-smart-contract/src/instructions/user/withdraw_stake_account.rs:104-301 | Values the mSOL, takes the fee, burns the rest, and hands out a split off one account, its record, validator and total, exactly as `Users.WithdrawStakeAccount`, or fails with its error |
| Marinade.Program.OrderUnstake | programs/marinade-forking-smart-contract/src/instructions/delayed_unstake/order_unstake.rs:42-107 | Raises both ticket totals, burns the mSOL and fills the ticket, for the next epoch once stake-delta has begun, exactly as `Users.OrderUnstake`, or fails with its error |
| Marinade.Program.Claim | programs/marinade-forking-smart-contract/src/instructions/delayed_unstake/claim.rs:91-140 | Checks the ticket and the real reserve, lowers both ticket totals, closes the ticket and pays from both reserve balances, exactly as `Users.Claim`, or fails with its error |
| Marinade.Program.LiquidUnstake | programs/marinade-forking-smart-contract/src/instructions/liq_pool/liquid_unstake.rs:60-164 | Pays lamports for the mSOL less the fee on the liquidity left after it, and keeps the mSOL less the treasury's cut, exactly as `Pools.LiquidUnstake`, or fails with its error |
| Marinade.Program.AddLiquidity | programs/marinade-forking-smart-contract/src/instructions/liq_pool/add_liquidity.rs:65-149 | Aligns the LP supply, prices shares before the deposit, then takes the lamports and mints, exactly as `Pools.AddLiquidity`, or fails with its error |
| Marinade.Program.RemoveLiquidity | programs/marinade-forking-smart-contract/src/instructions/liq_pool/remove_liquidity.rs:68-164 | Aligns the LP supply unless tokens were minted elsewhere, pays both legs in proportion and burns, exactly as `Pools.RemoveLiquidity`, or fails with its error |
| Marinade.Program.AddValidator | programs/marinade-forking-smart-contract/src/instructions/management/add_validator.rs:50-72 | Appends an empty record and raises the score total, exactly as `Admin.AddValidator`, or fails with its error |
| Marinade.Program.RemoveValidator | programs/marinade-forking-smart-contract/src/instructions/management/remove_validator.rs:47-71 | Swap-removes a validator without balance and lowers the score total, exactly as `Admin.RemoveValidator`, or fails with its error |
| Marinade.Program.SetValidatorScore | programs/marinade-forking-smart-contract/src/instructions/management/set_validator_score.rs:27-47 | Replaces a score in the record and in the total, exactly as `Admin.SetValidatorScore`, or fails with its error |

## Left out

- What the stake, token and system programs do is fixed by small functions: a split moves exactly the amount of stake and
  lamports, deactivating needs an account that is not deactivating yet, a redelegated account keeps its recorded stake but
  not the lamports, a merge takes two different accounts and may turn up to the source's rent into stake, and token
  balances add up to the supply. Any other reason these programs have to refuse a call is one more failed instruction.
- Among the refusals not modelled: a withdrawal from stake that has not cooled down yet, so `update_deactivated` may
  succeed in the model where the stake program would still refuse it.
- Stake of the pool is only deactivated by the pool, and no account plays two parts (the operations account is not the
  reserve, for instance).
- Account addresses, bump seeds, signers, authorities, lockups, who pays or is returned the rent of split and redelegated
  accounts, `change_authority` and the enlarging of list accounts.
- Events, log messages and the parsing of fees from floating-point numbers.
- Slots, epochs and the age of the epoch are inputs of each step; a clock that does not go back is only asked for where a
  theorem needs it. The windows commented out in `deactivate_stake.rs` and `redelegate.rs` do not exist, and the wait of 0
  epochs in `claim.rs` and `deposit_stake_account.rs` is written as such.
- Whether the treasury account can receive mSOL is an input of the instructions that pay it; the treasury is one of the
  mSOL holders.
- User balances are inputs, capped by the mSOL that exists outside the pool's leg, and by the LP supply.
- Amounts are natural numbers; every addition of the program has its u64 or u32 check. The range of the arguments of a
  call, and of the lamports an outside event leaves in a stake account, is not stated: leaving it out only allows more runs. The exact
  theorems about single calls ask that the amounts they divide are u64.
- The invariant says that the stake totals fit u64, not that the other totals do, so an instruction may fail by overflow
  where the original does.
- `Storage` states the byte operations of a step as ones that exist; the class `Marinade` itself works on the sequences.
- The assert of `partial_unstake` that the desired amount is at least the minimum stake is about user input; it is an ordinary
  error here, not one of the internal asserts.
- A stake account offered for deposit is always a delegated one, and one already under the pool's authority is told by its
  key.
- `add_with_balance` is used by no instruction and is not modelled.
- Price.StepKeepsPrice: asks for real mSOL when the step is an update, as the price can fall without; `Restart` says exactly when.
- Withdrawals.RunLosesAtMost: asks the same of the updates in the run, for the same reason.
- Progress.SomeUnstakeCools: asks that every active record is up to date and no validator had a split this epoch, as the call for an outdated record fails and a second split in an epoch is skipped.
- Dilution.SharesLoseAtMost: leaves withdrawn stake accounts out, which can lower the price of the mSOL in the pool.
- Redelegation.RedelegationStops: does not count redelegations of records without lamports, which the code carries out and which move nothing.
- Scheduler.SomeValidatorTakesStake: asks that active stake plus a minimum stake per validator fits u64, as the code caps the total target there.
- PoolShares.AddThenRemoveNeverProfits: asks for LP shares before the deposit, as the first depositor owns what is in the pool.
