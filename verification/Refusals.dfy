/** Which of its errors an instruction answers: the first check that fails, in the order of the program.
    The last branch of each says when all checks of the program itself have passed. */
module Refusals {
  import opened Results
  import opened Calc
  import opened Sums
  import opened Records
  import opened State
  import opened Ledger
  import opened Rates
  import Cranks
  import Users
  import Pools
  import opened UserBooks
  import opened UserEffects
  import opened PoolEffects
  import opened CrankEffects

  // ---------- users ----------

  lemma DepositRefusals(c: Chain, lamports: nat, funds: nat, bought: nat, cost: nat)
    requires Backed(c) && lamports < U64_LIMIT && c.msolSupply < U64_LIMIT
    requires Buys(bought, lamports, Backing(c), c.msolSupply) && Costs(c, lamports, bought, cost)
    ensures var r := Users.Deposit(c, lamports, funds);
            if c.paused then r == Err(ProgramIsPaused)
            else if lamports < c.config.minDeposit then r == Err(DepositAmountIsTooLow)
            else if funds < lamports then r == Err(NotEnoughUserFunds)
            else if U64_LIMIT <= InPool(c) then r == Err(Overflow)
            else if U64_LIMIT <= bought then r == Err(CalculationFailure)
            else if cost < lamports && c.solLeg + cost < U64_LIMIT && InPool(c) + lamports - cost < U64_LIMIT
                    && c.stakingCap < InPool(c) + lamports - cost
              then r == Err(StakingIsCapped)
            else r.Ok? || r == Err(Overflow)
  {
    hide Buys, Costs, Backing, Users.DepositOrder;
    OrderIs(c, lamports, bought, cost);
  }

  /** With more mSOL about than the pool knows of, nothing is sold or minted. */
  lemma UnregisteredMsolRefused(c: Chain, lamports: nat, funds: nat)
    requires !c.paused && c.config.minDeposit <= lamports <= funds && c.msolSupply < c.msolMint
    ensures Users.Deposit(c, lamports, funds) == Err(UnregisteredMsolMinted)
  {
  }

  lemma DepositStakeAccountRefusals(c: Chain, now: Clock, key: Key, account: StakeAccount, activationEpoch: nat,
                                    index: nat)
    ensures var r := Users.DepositStakeAccount(c, now, key, account, activationEpoch, index);
            if c.paused then r == Err(ProgramIsPaused)
            else if c.msolSupply < c.msolMint then r == Err(UnregisteredMsolMinted)
            else if account.deactivating then r == Err(RequiredActiveStake)
            else if now.epoch < activationEpoch then r == Err(DepositingNotActivatedStake)
            else if account.stake < c.stakeSystem.minStake then r == Err(TooLowDelegationInDepositingStake)
            else if account.lamports != account.stake + account.rent then r == Err(WrongStakeBalance)
            else if U64_LIMIT <= InPool(c) + account.stake then r == Err(Overflow)
            else if c.stakingCap < InPool(c) + account.stake then r == Err(StakingIsCapped)
            else if |c.validatorSystem.list| <= index then r == Err(ListIndexOutOfBounds)
            else if c.validatorSystem.list[index].vote != account.voter then r == Err(WrongValidatorAccountOrIndex)
            else if U64_LIMIT <= c.validatorSystem.list[index].activeBalance + account.stake then r == Err(Overflow)
            else if key in c.stakes then r == Err(RedepositingMarinadeStake)
            else if c.stakeSystem.capacity <= |c.stakeSystem.list| then r == Err(ListOverflow)
            else r.Ok? || r.error in {Overflow, CalculationFailure}
  {
  }

  lemma WithdrawStakeAccountRefusals(c: Chain, stakeIndex: nat, index: nat, msol: nat, funds: nat, key: Key,
                                     splitKey: Key, rent: nat, ready: bool, value: nat, fee: nat)
    requires Inv(c) && msol < U64_LIMIT && splitKey !in c.stakes
    requires IsWorth(value, msol, Backing(c), c.msolSupply) && Floors(fee, value, c.config.withdrawFee, 1_000_000)
    ensures var r := Users.WithdrawStakeAccount(c, stakeIndex, index, msol, funds, key, splitKey, rent, ready);
            if c.paused then r == Err(ProgramIsPaused)
            else if !c.config.withdrawEnabled then r == Err(WithdrawStakeAccountIsNotEnabled)
            else if funds < msol || c.msolMint < c.msolLeg + funds then r == Err(NotEnoughUserFunds)
            else if |c.stakeSystem.list| <= stakeIndex then r == Err(ListIndexOutOfBounds)
            else
              var record := c.stakeSystem.list[stakeIndex];
              if record.account != key then r == Err(WrongStakeAccountOrIndex)
              else if record.emergency != 0 then r == Err(StakeAccountIsEmergencyUnstaking)
              else
                record.account in c.stakes &&
                var account := c.stakes[record.account];
                if account.deactivating then r == Err(RequiredActiveStake)
                else if |c.validatorSystem.list| <= index then r == Err(ListIndexOutOfBounds)
                else if account.voter != c.validatorSystem.list[index].vote then r == Err(WrongValidatorAccountOrIndex)
                else if account.stake != record.lamports then r == Err(StakeAccountNotUpdatedYet)
                else if U64_LIMIT <= InPool(c) then r == Err(Overflow)
                else if U64_LIMIT <= value then r == Err(CalculationFailure)
                else if value < c.config.minWithdraw then r == Err(WithdrawAmountIsTooLow)
                else if value < fee + c.stakeSystem.minStake then r == Err(WithdrawStakeLamportsIsTooLow)
                else if record.lamports < value - fee then r == Err(SelectedStakeAccountHasNotEnoughFunds)
                else if record.lamports < value - fee + c.stakeSystem.minStake
                  then r == Err(StakeAccountRemainderTooLow)
                else r.Ok? || r.error in {Overflow, CalculationFailure, CallRefused}
  {
    hide Books, TicketTotals, IsWorth, Backing, Floors, MsolToSol, Portion, Users.WithdrawFees, Users.HandOut;
    WorthLamports(c, value, msol);
    if value < U64_LIMIT {
      FloorsPortion(fee, value, c.config.withdrawFee, 1_000_000);
      WithdrawalEnds(c, stakeIndex, index, msol, value - fee, splitKey, rent, ready);
    }
    if stakeIndex < |c.stakeSystem.list| {
      RecordHasAccount(c, stakeIndex);
    }
  }

  lemma RecordHasAccount(c: Chain, stakeIndex: nat)
    requires Books(c) && stakeIndex < |c.stakeSystem.list|
    ensures c.stakeSystem.list[stakeIndex].account in c.stakes
  {
  }

  lemma WithdrawalEnds(c: Chain, stakeIndex: nat, index: nat, msol: nat, lamports: nat, splitKey: Key, rent: nat,
                       ready: bool)
    requires Inv(c) && splitKey !in c.stakes
    ensures var fees := Users.WithdrawFees(c, msol, lamports, ready);
            && (fees.Err? ==> fees.error in {Overflow, CalculationFailure})
            && (fees.Ok? ==> fees.value <= msol)
            && (fees.Ok? && msol <= c.msolMint && stakeIndex < |c.stakeSystem.list| && index < |c.validatorSystem.list|
                && lamports <= c.stakeSystem.list[stakeIndex].lamports ==>
                  var stake, validator := c.stakeSystem.list[stakeIndex], c.validatorSystem.list[index];
                  BucketOf(c.stakes, stake) == Active(validator.vote) ==>
                    var r := Users.HandOut(c, stakeIndex, stake, index, validator, lamports, msol - fees.value,
                                           splitKey, rent);
                    r.Ok? || r.error == CallRefused)
  {
    hide Agree, ValidatorTotals, MsolFromLamports;
    assert MsolFromLamports(c, lamports).Err? ==> MsolFromLamports(c, lamports).error in {Overflow, CalculationFailure}
    by {
      MsolErrors(c, lamports);
    }
    if stakeIndex < |c.stakeSystem.list| && index < |c.validatorSystem.list|
       && BucketOf(c.stakes, c.stakeSystem.list[stakeIndex]) == Active(c.validatorSystem.list[index].vote) {
      ActiveCovered(c, stakeIndex, index);
    }
  }

  lemma MsolErrors(c: Chain, lamports: nat)
    ensures MsolFromLamports(c, lamports).Err? ==>
              MsolFromLamports(c, lamports).error in {Overflow, CalculationFailure}
  {
  }

  lemma OrderUnstakeRefusals(c: Chain, now: Clock, msol: nat, funds: nat, ticketKey: Key, beneficiary: Key, value: nat,
                             fee: nat)
    requires Inv(c) && msol < U64_LIMIT && ticketKey !in c.tickets
    requires IsWorth(value, msol, Backing(c), c.msolSupply) && Floors(fee, value, c.config.delayedFee, 1_000_000)
    ensures var r := Users.OrderUnstake(c, now, msol, funds, ticketKey, beneficiary);
            if c.paused then r == Err(ProgramIsPaused)
            else if funds < msol || c.msolMint < c.msolLeg + funds then r == Err(NotEnoughUserFunds)
            else if U64_LIMIT <= InPool(c) then r == Err(Overflow)
            else if U64_LIMIT <= value then r == Err(CalculationFailure)
            else if value < fee + c.config.minWithdraw then r == Err(WithdrawAmountIsTooLow)
            else r.Ok? || r == Err(Overflow)
  {
    hide Books, TicketTotals, IsWorth, Backing, Floors, MsolToSol, Portion;
    WorthLamports(c, value, msol);
    if value < U64_LIMIT {
      FloorsPortion(fee, value, c.config.delayedFee, 1_000_000);
    }
  }

  lemma ClaimRefusals(c: Chain, now: Clock, ticketKey: Key, receiver: Key)
    requires Inv(c) && ticketKey in c.tickets
    ensures var r, ticket := Users.Claim(c, now, ticketKey, receiver), c.tickets[ticketKey];
            if receiver != ticket.beneficiary then r == Err(WrongBeneficiary)
            else if c.paused then r == Err(ProgramIsPaused)
            else if ticket.lamports == 0 then r == Err(ReusingDelayedUnstakeTicket)
            else if now.epoch < ticket.createdEpoch then r == Err(TicketNotDue)
            else if now.epoch == ticket.createdEpoch && now.age < 1 then r == Err(TicketNotReady)
            else if c.reserve < ticket.lamports + c.config.rentExempt then r == Err(TicketNotReady)
            else if c.available < ticket.lamports then r == Err(ReserveUnderflow)
            else r.Ok?
  {
    hide Books;
    TicketSumRemove(c.tickets, ticketKey);
  }

  /** An account that exists cannot be created, and a closed ticket cannot be claimed. */
  lemma TakenAccountsRefused(c: Chain, now: Clock, amount: nat, funds: nat, key: Key, taken: Key, i: nat, j: nat,
                             rent: nat, ready: bool)
    ensures taken in c.stakes ==>
              && Users.WithdrawStakeAccount(c, i, j, amount, funds, key, taken, rent, ready) == Err(CallRefused)
              && Cranks.StakeReserve(c, now, j, key, taken, rent) == Err(CallRefused)
              && Cranks.DeactivateStake(c, now, i, j, key, taken, rent) == Err(CallRefused)
              && Cranks.PartialUnstake(c, now, i, j, amount, key, taken, rent) == Err(CallRefused)
    ensures taken in c.tickets ==> Users.OrderUnstake(c, now, amount, funds, taken, key) == Err(CallRefused)
    ensures taken !in c.tickets ==> Users.Claim(c, now, taken, key) == Err(CallRefused)
  {
  }

  // ---------- the pool ----------

  lemma LiquidUnstakeRefusals(c: Chain, msol: nat, funds: nat, ready: bool, worth: nat, points: nat, fee: nat,
                              paid: nat)
    requires Inv(c) && msol < U64_LIMIT
    requires IsWorth(worth, msol, Backing(c), c.msolSupply) && FeePoints(c, worth, points)
    requires Floors(fee, msol, points, 10_000)
    requires fee <= msol ==> IsWorth(paid, msol - fee, Backing(c), c.msolSupply)
    ensures var r := Pools.LiquidUnstake(c, msol, funds, ready);
            if c.paused then r == Err(ProgramIsPaused)
            else if funds < msol || c.msolMint < c.msolLeg + funds then r == Err(NotEnoughUserFunds)
            else if U64_LIMIT <= InPool(c) then r == Err(Overflow)
            else if U64_LIMIT <= worth || U64_LIMIT <= paid then r == Err(CalculationFailure)
            else if U64_LIMIT <= paid + c.config.rentExempt then r == Err(Overflow)
            else if Liquidity(c) < paid then r == Err(InsufficientLiquidity)
            else if paid < c.config.minWithdraw then r == Err(WithdrawAmountIsTooLow)
            else r.Ok? || r == Err(Overflow)
  {
    hide Books, TicketTotals, IsWorth, Floors, FeeWith, Backing, MsolToSol, Pools.LinearFee, FeeApply;
    WorthLamports(c, worth, msol);
    if worth < Liquidity(c) {
      LinearFeeIs(c.liqPool, Liquidity(c) - worth, points);
    }
    FeeIs(fee, msol, points);
    WorthLamports(c, paid, msol - fee);
    FeeWithin(fee, c.liqPool.treasuryCut);
  }

  lemma FeeIs(fee: nat, amount: nat, points: nat)
    requires points <= 10_000 && amount < U64_LIMIT && Floors(fee, amount, points, 10_000)
    ensures FeeApply(points, amount) == fee <= amount
  {
    FloorsPortion(fee, amount, points, 10_000);
  }

  lemma FeeWithin(amount: nat, points: nat)
    requires points <= 10_000 && amount < U64_LIMIT
    ensures FeeApply(points, amount) <= amount
  {
    PortionAtMost(amount, points, 10_000);
  }

  lemma AddLiquidityRefusals(c: Chain, lamports: nat, funds: nat)
    requires c.config.rentExempt <= c.solLeg
    ensures var r := Pools.AddLiquidity(c, lamports, funds);
            if c.paused then r == Err(ProgramIsPaused)
            else if lamports < c.config.minDeposit then r == Err(DepositAmountIsTooLow)
            else if funds < lamports then r == Err(NotEnoughUserFunds)
            else if U64_LIMIT <= c.solLeg + lamports then r == Err(Overflow)
            else if c.liqPool.solCap < c.solLeg + lamports then r == Err(LiquidityIsCapped)
            else if c.liqPool.lpSupply < c.lpMint then r == Err(UnregisteredLPMinted)
            else r.Ok? || r.error in {Overflow, CalculationFailure}
  {
  }

  lemma RemoveLiquidityRefusals(c: Chain, tokens: nat, funds: nat, sol: nat, msol: nat, worth: nat)
    requires Backed(c) && tokens < U64_LIMIT && 0 < c.lpMint
    requires Floors(sol, tokens, Liquidity(c), KnownShares(c)) && Floors(msol, tokens, c.msolLeg, KnownShares(c))
    requires IsWorth(worth, msol, Backing(c), c.msolSupply)
    ensures var r := Pools.RemoveLiquidity(c, tokens, funds);
            if c.paused then r == Err(ProgramIsPaused)
            else if funds < tokens || c.lpMint < funds then r == Err(NotEnoughUserFunds)
            else if U64_LIMIT <= sol || U64_LIMIT <= msol then r == Err(CalculationFailure)
            else if U64_LIMIT <= InPool(c) then r == Err(Overflow)
            else if U64_LIMIT <= worth then r == Err(CalculationFailure)
            else if U64_LIMIT <= sol + worth then r == Err(Overflow)
            else if sol + worth < c.config.minWithdraw then r == Err(WithdrawAmountIsTooLow)
            else r.Ok?
  {
    hide IsWorth, Floors, Backing, MsolToSol;
    FloorsProportional(sol, tokens, Liquidity(c), KnownShares(c));
    FloorsProportional(msol, tokens, c.msolLeg, KnownShares(c));
    if msol < U64_LIMIT {
      WorthLamports(c, worth, msol);
    }
    if tokens <= c.lpMint {
      RemovalIsCovered(c, tokens, sol, msol);
    }
  }

  // ---------- cranks ----------

  /** What is answered before a record of an account, of stake of a validator, is worked on. */
  predicate RecordRefused(c: Chain, stakeIndex: nat, key: Key, r: Result<Chain>) {
    if |c.stakeSystem.list| <= stakeIndex then r == Err(ListIndexOutOfBounds)
    else r == Err(WrongStakeAccountOrIndex) && c.stakeSystem.list[stakeIndex].account != key
  }

  predicate RecordFound(c: Chain, stakeIndex: nat, key: Key) {
    stakeIndex < |c.stakeSystem.list| && c.stakeSystem.list[stakeIndex].account == key
  }

  /** The account's own state against its record and validator. */
  predicate StakeRefused(c: Chain, stakeIndex: nat, index: nat, key: Key, r: Result<Chain>)
    requires RecordFound(c, stakeIndex, key) && index < |c.validatorSystem.list|
  {
    if key !in c.stakes then r == Err(StakeNotDelegated)
    else if c.stakes[key].voter != c.validatorSystem.list[index].vote then r == Err(WrongValidatorAccountOrIndex)
    else r == Err(StakeAccountNotUpdatedYet) && c.stakes[key].stake != c.stakeSystem.list[stakeIndex].lamports
  }

  lemma DeactivateStakeRefusals(c: Chain, now: Clock, stakeIndex: nat, index: nat, key: Key, splitKey: Key, rent: nat)
    requires splitKey !in c.stakes
    ensures var r := Cranks.DeactivateStake(c, now, stakeIndex, index, key, splitKey, rent);
            if c.paused then r == Err(ProgramIsPaused)
            else if !RecordFound(c, stakeIndex, key) then RecordRefused(c, stakeIndex, key, r)
            else if c.stakeSystem.list[stakeIndex].emergency != 0 then r == Err(StakeAccountIsEmergencyUnstaking)
            else if |c.validatorSystem.list| <= index then r == Err(ListIndexOutOfBounds)
            else if 0 <= Delta(c) then r == Err(UnstakingOnPositiveDelta)
            else if U64_LIMIT <= -Delta(c) then r == Err(Overflow)
            else Matches(c, stakeIndex, index, key) || StakeRefused(c, stakeIndex, index, key, r)
  {
    hide Cranks.DeactivatePlan, Cranks.DeactivateWhole, Cranks.DeactivatePart;
  }

  lemma EmergencyUnstakeRefusals(c: Chain, now: Clock, stakeIndex: nat, index: nat, key: Key, cap: nat)
    requires Books(c) && Floors(cap, InPool(c), c.config.maxMoved, 10_000)
    ensures var r := Cranks.EmergencyUnstake(c, now, stakeIndex, index, key);
            if c.paused then r == Err(ProgramIsPaused)
            else if !RecordFound(c, stakeIndex, key) then RecordRefused(c, stakeIndex, key, r)
            else if |c.validatorSystem.list| <= index then r == Err(ListIndexOutOfBounds)
            else if c.validatorSystem.list[index].score != 0 then r == Err(EmergencyUnstakingFromNonZeroScoredValidator)
            else if !Matches(c, stakeIndex, index, key) then StakeRefused(c, stakeIndex, index, key, r)
            else
              var count := CountOf(c, now, c.stakeSystem.list[stakeIndex].lamports);
              if U64_LIMIT <= count || U64_LIMIT <= InPool(c) then r == Err(Overflow)
              else if cap % U64_LIMIT < count then r == Err(MovingStakeIsCapped)
              else if c.stakes[key].deactivating then r == Err(CallRefused)
              else r.Ok? || r == Err(Overflow)
  {
    hide Books, OnStakeMoved, Floors;
    if Matches(c, stakeIndex, index, key) {
      MoveIsCapped(c, c.stakeSystem.list[stakeIndex].lamports, now, cap);
      MoveErrors(c, c.stakeSystem.list[stakeIndex].lamports, now);
      if !c.stakes[key].deactivating {
        MatchIsCovered(c, stakeIndex, index, key);
      }
    }
  }

  lemma MoveErrors(c: Chain, amount: nat, now: Clock)
    ensures var r := OnStakeMoved(c, amount, now);
            && (r.Err? ==> r.error in {Overflow, MovingStakeIsCapped})
            && (U64_LIMIT <= CountOf(c, now, amount) || U64_LIMIT <= InPool(c) ==> r == Err(Overflow))
  {
  }

  lemma PartialUnstakeRefusals(c: Chain, now: Clock, stakeIndex: nat, index: nat, desired: nat, key: Key,
                               splitKey: Key, rent: nat)
    requires splitKey !in c.stakes
    ensures var r := Cranks.PartialUnstake(c, now, stakeIndex, index, desired, key, splitKey, rent);
            if c.paused then r == Err(ProgramIsPaused)
            else if desired < c.stakeSystem.minStake then r == Err(DesiredUnstakeTooLow)
            else if |c.validatorSystem.list| <= index then r == Err(ListIndexOutOfBounds)
            else if !RecordFound(c, stakeIndex, key) then RecordRefused(c, stakeIndex, key, r)
            else if c.stakeSystem.list[stakeIndex].emergency != 0 then r == Err(StakeAccountIsEmergencyUnstaking)
            else if !Matches(c, stakeIndex, index, key) then StakeRefused(c, stakeIndex, index, key, r)
            else if c.validatorSystem.totalActive + Delta(c) < 0
                    || U64_LIMIT <= c.validatorSystem.totalActive + Delta(c)
              then r == Err(TargetOutOfRange)
            else true
  {
    hide StakeTarget, Cranks.PartialWhole, Cranks.PartialPart;
  }

  lemma RedelegateRefusals(c: Chain, now: Clock, stakeIndex: nat, i: nat, j: nat, key: Key, destVote: Key,
                           splitKey: Key, newKey: Key, rent: nat)
    requires splitKey !in c.stakes && newKey !in c.stakes && splitKey != newKey
    ensures var r := Cranks.Redelegate(c, now, stakeIndex, i, j, key, destVote, splitKey, newKey, rent);
            if c.paused then r == Err(ProgramIsPaused)
            else if i == j then r == Err(SourceAndDestValidatorsAreTheSame)
            else if !RecordFound(c, stakeIndex, key) then RecordRefused(c, stakeIndex, key, r)
            else if c.stakeSystem.list[stakeIndex].emergency != 0 then r == Err(StakeAccountIsEmergencyUnstaking)
            else if |c.validatorSystem.list| <= i then r == Err(ListIndexOutOfBounds)
            else if !Matches(c, stakeIndex, i, key) then StakeRefused(c, stakeIndex, i, key, r)
            else if c.validatorSystem.totalActive + Delta(c) < 0
                    || U64_LIMIT <= c.validatorSystem.totalActive + Delta(c)
              then r == Err(TargetOutOfRange)
            else r == Ok(c) || j < |c.validatorSystem.list| || r.Err?
  {
    hide StakeTarget, Cranks.RedelegateWhole, Cranks.RedelegatePart;
  }

  lemma MergeStakesRefusals(c: Chain, destIndex: nat, sourceIndex: nat, index: nat, destKey: Key, sourceKey: Key,
                            extra: nat)
    ensures var r := Cranks.MergeStakes(c, destIndex, sourceIndex, index, destKey, sourceKey, extra);
            if c.paused then r == Err(ProgramIsPaused)
            else if |c.validatorSystem.list| <= index then r == Err(ListIndexOutOfBounds)
            else if !RecordFound(c, destIndex, destKey) then RecordRefused(c, destIndex, destKey, r)
            else if !Mergeable(c, destIndex, index, destKey) then MergeRefused(c, destIndex, index, destKey, r)
            else if !RecordFound(c, sourceIndex, sourceKey) then RecordRefused(c, sourceIndex, sourceKey, r)
            else if !Mergeable(c, sourceIndex, index, sourceKey) then MergeRefused(c, sourceIndex, index, sourceKey, r)
            else if c.stakes[sourceKey].lamports != c.stakes[sourceKey].stake + c.stakes[sourceKey].rent
              then r == Err(StakeMustBeUpdated)
            else if destKey == sourceKey || c.stakes[sourceKey].rent < extra then r == Err(CallRefused)
            else r.Ok? || r == Err(Overflow)
  {
    hide SwapRemove;
  }

  predicate MergeRefused(c: Chain, stakeIndex: nat, index: nat, key: Key, r: Result<Chain>)
    requires RecordFound(c, stakeIndex, key) && index < |c.validatorSystem.list|
  {
    if key !in c.stakes then r == Err(StakeMustBeDelegated)
    else if c.stakes[key].deactivating then r == Err(StakeMustNotBeDeactivating)
    else if c.stakes[key].stake != c.stakeSystem.list[stakeIndex].lamports then r == Err(StakeMustBeUpdated)
    else r == Err(InvalidStakeDelegation) && c.stakes[key].voter != c.validatorSystem.list[index].vote
  }

  lemma StakeReserveRefusals(c: Chain, now: Clock, index: nat, vote: Key, newKey: Key, rent: nat)
    requires newKey !in c.stakes
    ensures var r := Cranks.StakeReserve(c, now, index, vote, newKey, rent);
            if c.paused then r == Err(ProgramIsPaused)
            else if Delta(c) <= 0 then r == Ok(c)
            else if U64_LIMIT <= Delta(c) then r == Err(Overflow)
            else if |c.validatorSystem.list| <= index then r == Err(ListIndexOutOfBounds)
            else if c.validatorSystem.list[index].vote != vote then r == Err(WrongValidatorAccountOrIndex)
            else if c.validatorSystem.list[index].lastDeltaEpoch == now.epoch && c.stakeSystem.extraRuns == 0
              then r == Ok(c)
            else if now.slot + c.stakeSystem.slots < now.lastSlot then r == Err(TooEarlyForStakeDelta)
            else true
  {
    hide Cranks.StakeByPlan;
  }

  lemma UpdateActiveRefusals(c: Chain, now: Clock, stakeIndex: nat, index: nat, key: Key, ready: bool)
    requires InPool(c) < U64_LIMIT && c.available + c.config.rentExempt < U64_LIMIT
    ensures var r := Cranks.UpdateActive(c, now, stakeIndex, index, key, ready);
            if c.paused then r == Err(ProgramIsPaused)
            else if !RecordFound(c, stakeIndex, key) then RecordRefused(c, stakeIndex, key, r)
            else if key !in c.stakes then r == Err(RequiredDelegatedStake)
            else if |c.validatorSystem.list| <= index then r == Err(ListIndexOutOfBounds)
            else if c.validatorSystem.list[index].vote != c.stakes[key].voter
              then r == Err(WrongValidatorAccountOrIndex)
            else if c.stakes[key].deactivating then r == Err(RequiredActiveStake)
            else if c.stakes[key].lamports < c.stakes[key].rent then r == Err(Overflow)
            else true
  {
    hide Cranks.TakeExtra, Cranks.ObserveDelegation, Cranks.UpdatePrice;
  }

  lemma UpdateDeactivatedRefusals(c: Chain, stakeIndex: nat, key: Key, ready: bool)
    requires InPool(c) < U64_LIMIT && c.available + c.config.rentExempt < U64_LIMIT
    ensures var r := Cranks.UpdateDeactivated(c, stakeIndex, key, ready);
            if c.paused then r == Err(ProgramIsPaused)
            else if !RecordFound(c, stakeIndex, key) then RecordRefused(c, stakeIndex, key, r)
            else if key !in c.stakes then r == Err(RequiredDelegatedStake)
            else if !c.stakes[key].deactivating then r == Err(RequiredDeactivatingStake)
            else if c.stakes[key].lamports < c.stakes[key].rent then r == Err(Overflow)
            else true
  {
    hide Cranks.CooledFees, Cranks.CloseCooled, Cranks.UpdatePrice;
  }
}
