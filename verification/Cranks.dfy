/** What the cranks and the manager's stake moves do to the chain: staking the reserve, unstaking,
    moving stake between validators, merging and updating stake accounts. */
module Cranks {
  import opened Results
  import opened Calc
  import opened Records
  import opened State

  /** What to do with the stake account an instruction was called for. */
  datatype Plan = Skip | Whole(amount: nat) | Part(amount: nat)

  // Active stake of a validator grows, and the total with it.
  function AddActive(c: Chain, index: nat, validator: ValidatorRecord, amount: nat): Result<Chain>
    requires index < |c.validatorSystem.list|
  {
    var active :- U64(validator.activeBalance + amount);
    var total :- U64(c.validatorSystem.totalActive + amount);
    Ok(WithTotalActive(WithValidator(c, index, validator.(activeBalance := active)), total))
  }

  // ---------- stake_reserve ----------

  function ReservePlan(c: Chain, validator: ValidatorRecord, delta: nat): Result<Plan> {
    var minStake := c.stakeSystem.minStake;
    var totalTarget := Min(c.validatorSystem.totalActive + delta, U64_MAX);
    var target :- StakeTarget(c.validatorSystem, validator, totalTarget);
    if validator.activeBalance >= target then
      Ok(Skip)
    else
      var gap := Min(target - validator.activeBalance, delta);
      var amount := if delta - gap < minStake then delta else gap;
      Ok(if amount < minStake then Skip else Part(amount))
  }

  function Stake(c: Chain, now: Clock, index: nat, validator: ValidatorRecord, amount: nat, newKey: Key,
                 rent: nat): Result<Chain>
    requires index < |c.validatorSystem.list|
  {
    var reserve :- Sub(c.reserve, amount, ReserveShort);
    var available :- Sub(c.available, amount, ReserveUnderflow);
    var stakes :- DelegateStake(c.stakes, validator.vote, amount, newKey, rent);
    var system :- AddStake(c.stakeSystem, newKey, amount, now.epoch, 0);
    var c1 := c.(reserve := reserve, available := available, stakes := stakes,
                 stakeSystem := system.(lastDeltaEpoch := now.epoch));
    AddActive(c1, index, validator.(lastDeltaEpoch := now.epoch), amount)
  }

  function StakeByPlan(c: Chain, now: Clock, index: nat, validator: ValidatorRecord, delta: nat, newKey: Key,
                       rent: nat): Result<Chain>
    requires index < |c.validatorSystem.list|
  {
    var plan :- ReservePlan(c, validator, delta);
    match plan
    case Part(amount) => Stake(c, now, index, validator, amount, newKey, rent)
    case _ => Ok(c)
  }

  function UseExtraRun(c: Chain): Chain
    requires c.stakeSystem.extraRuns > 0
  {
    c.(stakeSystem := c.stakeSystem.(extraRuns := c.stakeSystem.extraRuns - 1))
  }

  function StakeReserve(c: Chain, now: Clock, index: nat, vote: Key, newKey: Key, rent: nat): Result<Chain> {
    if newKey in c.stakes then Err(CallRefused) else
    :- Running(c);
    var delta := StakeDelta(c);
    if delta <= 0 then
      Ok(c)
    else
      var delta :- U64(delta);
      var validator :- GetValidator(c.validatorSystem, index, vote);
      if validator.lastDeltaEpoch == now.epoch && c.stakeSystem.extraRuns == 0 then
        Ok(c)
      else
        var c1 := if validator.lastDeltaEpoch == now.epoch then UseExtraRun(c) else c;
        :- Need(now.slot >= SatSub(now.lastSlot, c.stakeSystem.slots), TooEarlyForStakeDelta);
        StakeByPlan(c1, now, index, validator, delta, newKey, rent)
  }

  // ---------- deactivate_stake ----------

  function DeactivatePlan(c: Chain, now: Clock, stake: StakeRecord, validator: ValidatorRecord,
                          unstakeDelta: nat): Result<Plan> {
    var totalTarget := SatSub(c.validatorSystem.totalActive, unstakeDelta);
    var target :- StakeTarget(c.validatorSystem, validator, totalTarget);
    if validator.activeBalance <= target then
      Ok(Skip)
    else
      var accountTarget := SatSub(stake.lamports, Min(validator.activeBalance - target, unstakeDelta));
      var least :- U64(2 * c.stakeSystem.minStake);
      if accountTarget < least then
        Ok(Whole(stake.lamports))
      else if validator.lastDeltaEpoch == now.epoch then
        Ok(Skip)
      else if accountTarget < stake.lamports && stake.lamports - accountTarget <= unstakeDelta then
        Ok(Part(stake.lamports - accountTarget))
      else
        Err(AssertFailed)
  }

  // Moves `amount` from active to delayed cooling down, and writes back both records.
  function Unstaked(c: Chain, now: Clock, stakeIndex: nat, stake: StakeRecord, index: nat, validator: ValidatorRecord,
                    amount: nat): Result<Chain>
    requires stakeIndex < |c.stakeSystem.list| && index < |c.validatorSystem.list|
  {
    var active :- Sub(validator.activeBalance, amount, BalanceUnderflow);
    var total :- Sub(c.validatorSystem.totalActive, amount, BalanceUnderflow);
    var cooling :- U64(c.stakeSystem.delayedCooling + amount);
    var c1 := WithTotalActive(c, total);
    var c2 := c1.(stakeSystem := c1.stakeSystem.(lastDeltaEpoch := now.epoch, delayedCooling := cooling));
    Ok(WithValidator(WithRecord(c2, stakeIndex, stake), index, validator.(activeBalance := active)))
  }

  function DeactivateWhole(c: Chain, now: Clock, stakeIndex: nat, stake: StakeRecord, index: nat,
                           validator: ValidatorRecord): Result<Chain>
    requires stakeIndex < |c.stakeSystem.list| && index < |c.validatorSystem.list|
  {
    var stakes :- StartDeactivation(c.stakes, stake.account);
    Unstaked(c.(stakes := stakes), now, stakeIndex, stake, index, validator, stake.lamports)
  }

  function DeactivatePart(c: Chain, now: Clock, stakeIndex: nat, stake: StakeRecord, index: nat,
                          validator: ValidatorRecord,
                          amount: nat, splitKey: Key, rent: nat): Result<Chain>
    requires stakeIndex < |c.stakeSystem.list| && index < |c.validatorSystem.list|
  {
    var system :- AddStake(c.stakeSystem, splitKey, amount, now.epoch, 0);
    var split :- SplitStake(c.stakes, stake.account, amount, splitKey, rent);
    var stakes :- StartDeactivation(split, splitKey);
    var lamports :- Sub(stake.lamports, amount, BalanceUnderflow);
    Unstaked(c.(stakeSystem := system, stakes := stakes), now, stakeIndex, stake.(lamports := lamports),
             index, validator.(lastDeltaEpoch := now.epoch), amount)
  }

  function DeactivateStake(c: Chain, now: Clock, stakeIndex: nat, index: nat, key: Key, splitKey: Key,
                           rent: nat): Result<Chain> {
    if splitKey in c.stakes then Err(CallRefused) else
    :- Running(c);
    var stake :- GetStake(c.stakeSystem, stakeIndex, key);
    :- Need(stake.emergency == 0, StakeAccountIsEmergencyUnstaking);
    var validator :- Get(c.validatorSystem.list, index);
    var delta := StakeDelta(c);
    :- Need(delta < 0, UnstakingOnPositiveDelta);
    var unstakeDelta :- U64(-delta);
    :- CheckStake(c.stakes, key, stake.lamports, validator.vote);
    var plan :- DeactivatePlan(c, now, stake, validator, unstakeDelta);
    match plan
    case Skip => Ok(c)
    case Whole(_) => DeactivateWhole(c, now, stakeIndex, stake, index, validator)
    case Part(amount) => DeactivatePart(c, now, stakeIndex, stake, index, validator, amount, splitKey, rent)
  }

  // ---------- emergency_unstake and partial_unstake ----------

  // Moves `amount` from active to emergency cooling down, and writes back both records.
  function EmergencyUnstaked(c: Chain, stakeIndex: nat, stake: StakeRecord, index: nat, validator: ValidatorRecord,
                             amount: nat): Result<Chain>
    requires stakeIndex < |c.stakeSystem.list| && index < |c.validatorSystem.list|
  {
    var active :- Sub(validator.activeBalance, amount, BalanceUnderflow);
    var total :- Sub(c.validatorSystem.totalActive, amount, BalanceUnderflow);
    var cooling :- U64(c.emergencyCooling + amount);
    var c1 := WithTotalActive(c, total).(emergencyCooling := cooling);
    Ok(WithValidator(WithRecord(c1, stakeIndex, stake), index, validator.(activeBalance := active)))
  }

  function EmergencyUnstake(c: Chain, now: Clock, stakeIndex: nat, index: nat, key: Key): Result<Chain> {
    if c.paused then Err(ProgramIsPaused) else
    var stake :- GetStake(c.stakeSystem, stakeIndex, key);
    var validator :- Get(c.validatorSystem.list, index);
    :- Need(validator.score == 0, EmergencyUnstakingFromNonZeroScoredValidator);
    :- CheckStake(c.stakes, key, stake.lamports, validator.vote);
    var c1 :- OnStakeMoved(c, stake.lamports, now);
    var stakes :- StartDeactivation(c.stakes, key);
    :- Need(stake.emergency == 0, StakeAccountIsEmergencyUnstaking);
    EmergencyUnstaked(c1.(stakes := stakes), stakeIndex, stake.(emergency := 1), index, validator, stake.lamports)
  }

  function PartialPlan(c: Chain, stake: StakeRecord, validator: ValidatorRecord, desired: nat): Result<Plan> {
    var totalTarget :- MoveTarget(c);
    var target :- StakeTarget(c.validatorSystem, validator, totalTarget);
    var least :- U64(target + c.stakeSystem.minStake);
    if validator.activeBalance <= least then
      Ok(Skip)
    else
      var amount := Min(desired, validator.activeBalance - target);
      Ok(if SatSub(stake.lamports, amount) < c.stakeSystem.minStake then Whole(stake.lamports) else Part(amount))
  }

  function PartialWhole(c: Chain, now: Clock, stakeIndex: nat, stake: StakeRecord, index: nat,
                        validator: ValidatorRecord): Result<Chain>
    requires stakeIndex < |c.stakeSystem.list| && index < |c.validatorSystem.list|
  {
    var stakes :- StartDeactivation(c.stakes, stake.account);
    var c1 :- OnStakeMoved(c, stake.lamports, now);
    EmergencyUnstaked(c1.(stakes := stakes), stakeIndex, stake.(emergency := 1), index, validator, stake.lamports)
  }

  function PartialPart(c: Chain, now: Clock, stakeIndex: nat, stake: StakeRecord, index: nat,
                       validator: ValidatorRecord,
                       amount: nat, splitKey: Key, rent: nat): Result<Chain>
    requires stakeIndex < |c.stakeSystem.list| && index < |c.validatorSystem.list|
  {
    var system :- AddStake(c.stakeSystem, splitKey, amount, now.epoch, 1);
    var split :- SplitStake(c.stakes, stake.account, amount, splitKey, rent);
    var stakes :- StartDeactivation(split, splitKey);
    var lamports :- Sub(stake.lamports, amount, BalanceUnderflow);
    var c1 :- OnStakeMoved(c, amount, now);
    EmergencyUnstaked(c1.(stakeSystem := system, stakes := stakes), stakeIndex, stake.(lamports := lamports), index,
                      validator, amount)
  }

  function PartialUnstake(c: Chain, now: Clock, stakeIndex: nat, index: nat, desired: nat, key: Key, splitKey: Key,
                          rent: nat): Result<Chain> {
    if splitKey in c.stakes then Err(CallRefused) else
    :- Running(c);
    :- Need(desired >= c.stakeSystem.minStake, DesiredUnstakeTooLow);
    var validator :- Get(c.validatorSystem.list, index);
    var stake :- GetStake(c.stakeSystem, stakeIndex, key);
    :- Need(stake.emergency == 0, StakeAccountIsEmergencyUnstaking);
    :- CheckStake(c.stakes, key, stake.lamports, validator.vote);
    var plan :- PartialPlan(c, stake, validator, desired);
    match plan
    case Skip => Ok(c)
    case Whole(_) => PartialWhole(c, now, stakeIndex, stake, index, validator)
    case Part(amount) => PartialPart(c, now, stakeIndex, stake, index, validator, amount, splitKey, rent)
  }

  // ---------- redelegate ----------

  function RedelegatePlan(c: Chain, stake: StakeRecord, source: ValidatorRecord,
                          dest: Result<ValidatorRecord>): Result<Plan> {
    var minStake := c.stakeSystem.minStake;
    var totalTarget :- MoveTarget(c);
    var sourceTarget :- StakeTarget(c.validatorSystem, source, totalTarget);
    var sourceLeast :- U64(sourceTarget + minStake);
    if source.activeBalance < sourceLeast then
      Ok(Skip)
    else
      var fromSource := Min(source.activeBalance - sourceTarget, stake.lamports);
      var dest :- dest;
      var destTarget :- StakeTarget(c.validatorSystem, dest, totalTarget);
      var destLeast :- U64(dest.activeBalance + minStake);
      if destLeast > destTarget then
        Ok(Skip)
      else
        var amount := Min(destTarget - dest.activeBalance, fromSource);
        Ok(if stake.lamports - amount < minStake then Whole(stake.lamports) else Part(amount))
  }

  // Moves `amount` of active balance from one validator to the other, and writes back all records.
  function Moved(c: Chain, stakeIndex: nat, stake: StakeRecord, sourceIndex: nat, source: ValidatorRecord,
                 destIndex: nat, dest: ValidatorRecord, amount: nat): Result<Chain>
    requires stakeIndex < |c.stakeSystem.list|
    requires sourceIndex < |c.validatorSystem.list| && destIndex < |c.validatorSystem.list|
  {
    var sourceActive :- Sub(source.activeBalance, amount, BalanceUnderflow);
    var destActive :- U64(dest.activeBalance + amount);
    var c1 := WithRecord(c, stakeIndex, stake);
    var c2 := WithValidator(c1, sourceIndex, source.(activeBalance := sourceActive));
    Ok(WithValidator(c2, destIndex, dest.(activeBalance := destActive)))
  }

  function RedelegateWhole(c: Chain, now: Clock, stakeIndex: nat, stake: StakeRecord, sourceIndex: nat,
                           source: ValidatorRecord,
                           destIndex: nat, dest: ValidatorRecord, newKey: Key, rent: nat): Result<Chain>
    requires stakeIndex < |c.stakeSystem.list|
    requires sourceIndex < |c.validatorSystem.list| && destIndex < |c.validatorSystem.list|
  {
    var c1 :- OnStakeMoved(c, stake.lamports, now);
    var stakes :- RedelegateStake(c.stakes, stake.account, dest.vote, newKey, rent);
    var system :- AddStake(c.stakeSystem, newKey, stake.lamports, now.epoch, 0);
    Moved(c1.(stakes := stakes, stakeSystem := system), stakeIndex, stake.(emergency := 0, lamports := 0),
          sourceIndex, source, destIndex, dest, stake.lamports)
  }

  function RedelegatePart(c: Chain, now: Clock, stakeIndex: nat, stake: StakeRecord, sourceIndex: nat,
                          source: ValidatorRecord,
                          destIndex: nat, dest: ValidatorRecord, amount: nat, splitKey: Key, newKey: Key,
                          rent: nat): Result<Chain>
    requires stakeIndex < |c.stakeSystem.list|
    requires sourceIndex < |c.validatorSystem.list| && destIndex < |c.validatorSystem.list|
  {
    var system1 :- AddStake(c.stakeSystem, splitKey, 0, now.epoch, 0);
    var split :- SplitStake(c.stakes, stake.account, amount, splitKey, rent);
    var lamports :- Sub(stake.lamports, amount, BalanceUnderflow);
    var c1 :- OnStakeMoved(c, amount, now);
    var stakes :- RedelegateStake(split, splitKey, dest.vote, newKey, rent);
    var system2 :- AddStake(system1, newKey, amount, now.epoch, 0);
    Moved(c1.(stakes := stakes, stakeSystem := system2), stakeIndex, stake.(lamports := lamports),
          sourceIndex, source, destIndex, dest, amount)
  }

  function Redelegate(c: Chain, now: Clock, stakeIndex: nat, sourceIndex: nat, destIndex: nat, key: Key, destVote: Key,
                      splitKey: Key, newKey: Key, rent: nat): Result<Chain> {
    if splitKey in c.stakes || newKey in c.stakes || splitKey == newKey then Err(CallRefused) else
    :- Running(c);
    :- Need(sourceIndex != destIndex, SourceAndDestValidatorsAreTheSame);
    var stake :- GetStake(c.stakeSystem, stakeIndex, key);
    :- Need(stake.emergency == 0, StakeAccountIsEmergencyUnstaking);
    var source :- Get(c.validatorSystem.list, sourceIndex);
    :- CheckStake(c.stakes, key, stake.lamports, source.vote);
    var dest := GetValidator(c.validatorSystem, destIndex, destVote);
    var plan :- RedelegatePlan(c, stake, source, dest);
    match plan
    case Skip => Ok(c)
    case Whole(_) =>
      var dest :- dest;
      RedelegateWhole(c, now, stakeIndex, stake, sourceIndex, source, destIndex, dest, newKey, rent)
    case Part(amount) =>
      var dest :- dest;
      RedelegatePart(c, now, stakeIndex, stake, sourceIndex, source, destIndex, dest, amount, splitKey, newKey, rent)
  }

  // ---------- merge_stakes ----------

  // The checks on either account of a merge; a merge needs active, updated stake of the validator.
  function CheckMergeable(stakes: map<Key, StakeAccount>, record: StakeRecord, vote: Key): Outcome {
    if record.account !in stakes then Fail(StakeMustBeDelegated)
    else if stakes[record.account].deactivating then Fail(StakeMustNotBeDeactivating)
    else if record.lamports != stakes[record.account].stake then Fail(StakeMustBeUpdated)
    else Need(stakes[record.account].voter == vote, InvalidStakeDelegation)
  }

  // Merges the source account into the destination; the rent that did not become stake is returned.
  function MergeRecords(c: Chain, destIndex: nat, dest: StakeRecord, sourceIndex: nat, source: StakeRecord,
                        index: nat, validator: ValidatorRecord, extra: nat): Result<Chain>
    requires destIndex < |c.stakeSystem.list| && sourceIndex < |c.stakeSystem.list| && index < |c.validatorSystem.list|
    requires source.account in c.stakes
  {
    var merged :- MergeStake(c.stakes, dest.account, source.account, extra);
    var c1 :- AddActive(c, index, validator, extra);
    var c2 := WithoutRecord(WithRecord(c1, destIndex, dest.(lamports := merged[dest.account].stake)), sourceIndex);
    var stakes :- WithdrawStake(merged, dest.account, c.stakes[source.account].rent - extra);
    Ok(c2.(stakes := stakes))
  }

  function MergeStakes(c: Chain, destIndex: nat, sourceIndex: nat, index: nat, destKey: Key, sourceKey: Key,
                       extra: nat): Result<Chain> {
    if c.paused then Err(ProgramIsPaused) else
    var validator :- Get(c.validatorSystem.list, index);
    var dest :- GetStake(c.stakeSystem, destIndex, destKey);
    :- CheckMergeable(c.stakes, dest, validator.vote);
    var source :- GetStake(c.stakeSystem, sourceIndex, sourceKey);
    :- CheckMergeable(c.stakes, source, validator.vote);
    :- Need(c.stakes[sourceKey].lamports == c.stakes[sourceKey].stake + c.stakes[sourceKey].rent, StakeMustBeUpdated);
    MergeRecords(c, destIndex, dest, sourceIndex, source, index, validator, extra)
  }

  // ---------- update_active and update_deactivated ----------

  // Aligns the virtual reserve balance and mSOL supply with the real ones.
  function Begin(c: Chain): Chain {
    c.(available := SatSub(c.reserve, c.config.rentExempt),
       stakingCap := if c.msolMint > c.msolSupply then 0 else c.stakingCap,
       msolSupply := c.msolMint)
  }

  function WithdrawToReserve(c: Chain, key: Key, amount: nat): Result<Chain> {
    if amount == 0 then
      Ok(c)
    else
      var stakes :- WithdrawStake(c.stakes, key, amount);
      var reserve :- U64(c.reserve + amount);
      var available :- U64(c.available + amount);
      Ok(c.(stakes := stakes, reserve := reserve, available := available))
  }

  // The protocol's fee on incoming lamports, minted as mSOL when the treasury can take it.
  function MintProtocolFees(c: Chain, lamports: nat, treasuryReady: bool): Result<Chain> {
    if !treasuryReady then
      Ok(c)
    else
      var msol :- MsolFromLamports(c, FeeApply(c.config.rewardFee, lamports));
      MintMsol(c, msol)
  }

  function UpdatePrice(c: Chain): Result<Chain> {
    var price :- MsolToSol(c, PRICE_DENOMINATOR);
    Ok(c.(msolPrice := price))
  }

  // Extra lamports of an active stake account go to the reserve.
  function TakeExtra(c: Chain, key: Key, extra: nat, treasuryReady: bool): Result<Chain> {
    if extra > 0 then
      var c1 :- WithdrawToReserve(c, key, extra);
      MintProtocolFees(c1, extra, treasuryReady)
    else
      Ok(c)
  }

  // Rewards raise the validator's balance and the total; a slash lowers both.
  function ObserveDelegation(c: Chain, index: nat, validator: ValidatorRecord, before: nat, delegated: nat,
                             treasuryReady: bool): Result<Chain>
    requires index < |c.validatorSystem.list|
  {
    if delegated >= before then
      var c1 :- MintProtocolFees(c, delegated - before, treasuryReady);
      var active :- U64(validator.activeBalance + (delegated - before));
      var total :- U64(c1.validatorSystem.totalActive + (delegated - before));
      Ok(WithValidator(WithTotalActive(c1, total), index, validator.(activeBalance := active)))
    else
      var slashed := before - delegated;
      Ok(WithValidator(WithTotalActive(c, SatSub(c.validatorSystem.totalActive, slashed)), index,
                       validator.(activeBalance := SatSub(validator.activeBalance, slashed))))
  }

  // Books what an active account has over its record: extra lamports and delegation rewards, or a slash.
  function BookActive(c: Chain, now: Clock, stakeIndex: nat, stake: StakeRecord, index: nat, validator: ValidatorRecord,
                      account: StakeAccount, treasuryReady: bool): Result<Chain>
    requires stakeIndex < |c.stakeSystem.list| && index < |c.validatorSystem.list|
  {
    var balance :- Sub(account.lamports, account.rent, Overflow);
    var c1 :- TakeExtra(c, stake.account, SatSub(balance, account.stake), treasuryReady);
    var c2 :- ObserveDelegation(c1, index, validator, stake.lamports, account.stake, treasuryReady);
    Ok(WithRecord(c2, stakeIndex, stake.(epoch := now.epoch, lamports := account.stake)))
  }

  function CheckReserve(c: Chain): Outcome {
    Need(c.available + c.config.rentExempt == c.reserve, AssertFailed)
  }

  function UpdateActive(c: Chain, now: Clock, stakeIndex: nat, index: nat, key: Key,
                        treasuryReady: bool): Result<Chain> {
    if c.paused then Err(ProgramIsPaused) else
    var _ :- U64(Control(c));
    var _ :- U64(c.available + c.config.rentExempt);
    var c1 := Begin(c);
    var stake :- GetStake(c1.stakeSystem, stakeIndex, key);
    :- Need(key in c1.stakes, RequiredDelegatedStake);
    var account := c1.stakes[key];
    var validator :- GetValidator(c1.validatorSystem, index, account.voter);
    :- Need(!account.deactivating, RequiredActiveStake);
    var c2 :- BookActive(c1, now, stakeIndex, stake, index, validator, account, treasuryReady);
    var c3 :- UpdatePrice(c2);
    :- CheckReserve(c3);
    Ok(c3)
  }

  // The cooled-down amount is in the reserve now.
  function LeaveCooling(c: Chain, stake: StakeRecord): Result<Chain> {
    if stake.lamports == 0 then
      Ok(c)
    else if stake.emergency == 0 then
      var cooling :- Sub(c.stakeSystem.delayedCooling, stake.lamports, BalanceUnderflow);
      Ok(c.(stakeSystem := c.stakeSystem.(delayedCooling := cooling)))
    else
      var cooling :- Sub(c.emergencyCooling, stake.lamports, BalanceUnderflow);
      Ok(c.(emergencyCooling := cooling))
  }

  function DropCooled(c: Chain, stakeIndex: nat, stake: StakeRecord): Result<Chain>
    requires stakeIndex < |c.stakeSystem.list|
  {
    var c1 :- LeaveCooling(c, stake);
    Ok(WithoutRecord(c1, stakeIndex).(stakes := c1.stakes - {stake.account}))
  }

  // All lamports of the account go to the reserve, and its rent from there to the operations account.
  function Drain(c: Chain, key: Key, account: StakeAccount): Result<Chain> {
    var c1 :- WithdrawToReserve(c, key, account.lamports);
    var reserve :- Sub(c1.reserve, account.rent, ReserveShort);
    var available :- Sub(c1.available, account.rent, ReserveUnderflow);
    Ok(c1.(reserve := reserve, available := available))
  }

  // The fee on what a cooled-down account earned; a slash pays none.
  function CooledFees(c: Chain, before: nat, balance: nat, treasuryReady: bool): Result<Chain> {
    if balance >= before then MintProtocolFees(c, balance - before, treasuryReady) else Ok(c)
  }

  // Books what a cooled-down account has over its record, empties it and drops the record.
  function BookDeactivated(c: Chain, stakeIndex: nat, stake: StakeRecord, account: StakeAccount,
                           treasuryReady: bool): Result<Chain>
    requires stakeIndex < |c.stakeSystem.list|
  {
    var balance :- Sub(account.lamports, account.rent, Overflow);
    var c1 :- CooledFees(c, stake.lamports, balance, treasuryReady);
    CloseCooled(c1, stakeIndex, stake, account)
  }

  function CloseCooled(c: Chain, stakeIndex: nat, stake: StakeRecord, account: StakeAccount): Result<Chain>
    requires stakeIndex < |c.stakeSystem.list|
  {
    var c1 :- Drain(c, stake.account, account);
    DropCooled(c1, stakeIndex, stake)
  }

  function UpdateDeactivated(c: Chain, stakeIndex: nat, key: Key, treasuryReady: bool): Result<Chain> {
    if c.paused then Err(ProgramIsPaused) else
    var _ :- U64(Control(c));
    var _ :- U64(c.available + c.config.rentExempt);
    var c1 := Begin(c);
    var stake :- GetStake(c1.stakeSystem, stakeIndex, key);
    :- Need(key in c1.stakes, RequiredDelegatedStake);
    :- Need(c1.stakes[key].deactivating, RequiredDeactivatingStake);
    var c2 :- BookDeactivated(c1, stakeIndex, stake, c1.stakes[key], treasuryReady);
    UpdatePrice(c2)
  }
}
