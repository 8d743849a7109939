/** The program itself: the state account and the accounts it controls as fields, and one method for
    each instruction that changes them step by step. Every method does what its function on chain
    values says; a failed one may leave its changes behind, and the runtime undoes them. */
module Marinade {
  import opened Results
  import opened Calc
  import opened Sums
  import opened Records
  import opened State
  import Cranks
  import Users
  import Pools
  import Admin
  import Machine
  import Ledger
  import Invariants

  class Program {
    // the state account
    var config: Config
    var stakeSystem: StakeSystem
    var validatorSystem: ValidatorSystem
    var liqPool: LiqPool
    var available: nat
    var msolSupply: nat
    var msolPrice: nat
    var ticketCount: nat
    var ticketBalance: nat
    var stakingCap: nat
    var emergencyCooling: nat
    var paused: bool
    var lastMoveEpoch: nat
    var stakeMoved: nat
    // the accounts it controls
    var stakes: map<Key, StakeAccount>
    var tickets: map<Key, Ticket>
    var reserve: nat
    var msolMint: nat
    var solLeg: nat
    var msolLeg: nat
    var lpMint: nat

    function View(): Chain
      reads this
    {
      Chain(config, stakeSystem, validatorSystem, liqPool, available, msolSupply, msolPrice, ticketCount, ticketBalance,
            stakingCap, emergencyCooling, paused, lastMoveEpoch, stakeMoved, stakes, tickets, reserve, msolMint,
            solLeg, msolLeg, lpMint)
    }

    /** The outcome is the specified one, and so is the new state on success. */
    ghost predicate Realizes(spec: Result<Chain>, r: Result<()>)
      reads this
    {
      match spec
      case Ok(c) => r == Ok(()) && View() == c
      case Err(error) => r == Err(error)
    }

    constructor (c: Chain)
      ensures View() == c
    {
      config, stakeSystem, validatorSystem, liqPool := c.config, c.stakeSystem, c.validatorSystem, c.liqPool;
      available, msolSupply, msolPrice := c.available, c.msolSupply, c.msolPrice;
      ticketCount, ticketBalance, stakingCap := c.ticketCount, c.ticketBalance, c.stakingCap;
      emergencyCooling, paused, lastMoveEpoch, stakeMoved := c.emergencyCooling, c.paused, c.lastMoveEpoch,
        c.stakeMoved;
      stakes, tickets, reserve, msolMint := c.stakes, c.tickets, c.reserve, c.msolMint;
      solLeg, msolLeg, lpMint := c.solLeg, c.msolLeg, c.lpMint;
    }

    // ---------- steps instructions share ----------

    method SetStake(index: nat, record: StakeRecord)
      requires index < |stakeSystem.list|
      modifies this`stakeSystem
      ensures View() == WithRecord(old(View()), index, record)
    {
      stakeSystem := stakeSystem.(list := stakeSystem.list[index := record]);
    }

    method RemoveStake(index: nat)
      requires index < |stakeSystem.list|
      modifies this`stakeSystem
      ensures View() == WithoutRecord(old(View()), index)
    {
      stakeSystem := stakeSystem.(list := SwapRemove(stakeSystem.list, index));
    }

    method SetValidator(index: nat, validator: ValidatorRecord)
      requires index < |validatorSystem.list|
      modifies this`validatorSystem
      ensures View() == WithValidator(old(View()), index, validator)
    {
      validatorSystem := validatorSystem.(list := validatorSystem.list[index := validator]);
    }

    method AddActive(index: nat, validator: ValidatorRecord, amount: nat) returns (r: Result<()>)
      requires index < |validatorSystem.list|
      modifies this`validatorSystem
      ensures Realizes(Cranks.AddActive(old(View()), index, validator, amount), r)
    {
      var active :- U64(validator.activeBalance + amount);
      SetValidator(index, validator.(activeBalance := active));
      var total :- U64(validatorSystem.totalActive + amount);
      validatorSystem := validatorSystem.(totalActive := total);
      return Ok(());
    }

    method StakeHasMoved(amount: nat, now: Clock) returns (r: Result<()>)
      modifies this`lastMoveEpoch, this`stakeMoved
      ensures Realizes(OnStakeMoved(old(View()), amount, now), r)
    {
      if now.epoch != lastMoveEpoch {
        lastMoveEpoch := now.epoch;
        stakeMoved := 0;
      }
      stakeMoved :- U64(stakeMoved + amount);
      var control :- U64(Control(View()));
      if stakeMoved > FeeApply(config.maxMoved, control) {
        return Err(MovingStakeIsCapped);
      }
      return Ok(());
    }

    method Mint(amount: nat) returns (r: Result<()>)
      modifies this`msolMint, this`msolSupply
      ensures Realizes(MintMsol(old(View()), amount), r)
    {
      msolMint :- U64(msolMint + amount);
      msolSupply :- U64(msolSupply + amount);
      return Ok(());
    }

    // ---------- stake_reserve ----------

    // Moves `amount` from the reserve into a new stake account of the validator.
    method StakeAmount(now: Clock, index: nat, record: ValidatorRecord, amount: nat, newKey: Key, rent: nat)
      returns (r: Result<()>)
      requires index < |validatorSystem.list|
      modifies this`reserve, this`available, this`stakes, this`stakeSystem, this`validatorSystem
      ensures Realizes(Cranks.Stake(old(View()), now, index, record, amount, newKey, rent), r)
    {
      hide DelegateStake, AddStake, Cranks.AddActive;
      reserve :- Sub(reserve, amount, ReserveShort);
      available :- Sub(available, amount, ReserveUnderflow);
      stakes :- DelegateStake(stakes, record.vote, amount, newKey, rent);
      stakeSystem :- AddStake(stakeSystem, newKey, amount, now.epoch, 0);
      stakeSystem := stakeSystem.(lastDeltaEpoch := now.epoch);
      r := AddActive(index, record.(lastDeltaEpoch := now.epoch), amount);
    }

    method StakeReserve(now: Clock, index: nat, vote: Key, newKey: Key, rent: nat) returns (r: Result<()>)
      modifies this`reserve, this`available, this`stakes, this`stakeSystem, this`validatorSystem
      ensures Realizes(Cranks.StakeReserve(old(View()), now, index, vote, newKey, rent), r)
    {
      if newKey in stakes {
        return Err(CallRefused);
      }
      :- Running(View());
      var stakeDelta := StakeDelta(View());
      if stakeDelta <= 0 {
        return Ok(());
      }
      var delta :- U64(stakeDelta);
      var validator :- GetValidator(validatorSystem, index, vote);
      if validator.lastDeltaEpoch == now.epoch {
        if stakeSystem.extraRuns == 0 {
          return Ok(());
        }
        stakeSystem := stakeSystem.(extraRuns := stakeSystem.extraRuns - 1);
      }
      :- Need(now.slot >= SatSub(now.lastSlot, stakeSystem.slots), TooEarlyForStakeDelta);
      var plan :- PlanReserve(validator, delta);
      if plan.Part? {
        r := StakeAmount(now, index, validator, plan.amount, newKey, rent);
      } else {
        r := Ok(());
      }
    }

    // How much of the delta to stake to the validator, if any.
    method PlanReserve(validator: ValidatorRecord, delta: nat) returns (r: Result<Cranks.Plan>)
      ensures r == Cranks.ReservePlan(View(), validator, delta)
    {
      var totalTarget := Min(validatorSystem.totalActive + delta, U64_MAX);
      var target :- StakeTarget(validatorSystem, validator, totalTarget);
      if validator.activeBalance >= target {
        return Ok(Cranks.Skip);
      }
      var amount := Min(SatSub(target, validator.activeBalance), delta);
      if delta - amount < stakeSystem.minStake {
        amount := delta;
      }
      return Ok(if amount < stakeSystem.minStake then Cranks.Skip else Cranks.Part(amount));
    }

    // ---------- deactivate_stake ----------

    // Moves `amount` from active to delayed cooling down, and writes back both records.
    method CoolDown(now: Clock, stakeIndex: nat, stake: StakeRecord, index: nat, record: ValidatorRecord, amount: nat)
      returns (r: Result<()>)
      requires stakeIndex < |stakeSystem.list| && index < |validatorSystem.list|
      modifies this`stakeSystem, this`validatorSystem
      ensures Realizes(Cranks.Unstaked(old(View()), now, stakeIndex, stake, index, record, amount), r)
    {
      var active :- Sub(record.activeBalance, amount, BalanceUnderflow);
      var validator := record.(activeBalance := active);
      stakeSystem := stakeSystem.(lastDeltaEpoch := now.epoch);
      var total :- Sub(validatorSystem.totalActive, amount, BalanceUnderflow);
      validatorSystem := validatorSystem.(totalActive := total);
      var cooling :- U64(stakeSystem.delayedCooling + amount);
      stakeSystem := stakeSystem.(delayedCooling := cooling);
      SetStake(stakeIndex, stake);
      SetValidator(index, validator);
      return Ok(());
    }

    method DeactivateWhole(now: Clock, stakeIndex: nat, stake: StakeRecord, index: nat, validator: ValidatorRecord)
      returns (r: Result<()>)
      requires stakeIndex < |stakeSystem.list| && index < |validatorSystem.list|
      modifies this`stakes, this`stakeSystem, this`validatorSystem
      ensures Realizes(Cranks.DeactivateWhole(old(View()), now, stakeIndex, stake, index, validator), r)
    {
      stakes :- StartDeactivation(stakes, stake.account);
      r := CoolDown(now, stakeIndex, stake, index, validator, stake.lamports);
    }

    method DeactivatePart(now: Clock, stakeIndex: nat, stake: StakeRecord, index: nat, record: ValidatorRecord,
                          amount: nat, splitKey: Key, rent: nat) returns (r: Result<()>)
      requires stakeIndex < |stakeSystem.list| && index < |validatorSystem.list|
      modifies this`stakes, this`stakeSystem, this`validatorSystem
      ensures Realizes(Cranks.DeactivatePart(old(View()), now, stakeIndex, stake, index, record, amount, splitKey,
                                             rent), r)
    {
      var validator := record.(lastDeltaEpoch := now.epoch);
      stakeSystem :- AddStake(stakeSystem, splitKey, amount, now.epoch, 0);
      stakes :- SplitStake(stakes, stake.account, amount, splitKey, rent);
      stakes :- StartDeactivation(stakes, splitKey);
      var left :- Sub(stake.lamports, amount, BalanceUnderflow);
      r := CoolDown(now, stakeIndex, stake.(lamports := left), index, validator, amount);
    }

    method DeactivateStake(now: Clock, stakeIndex: nat, index: nat, key: Key, splitKey: Key, rent: nat)
      returns (r: Result<()>)
      modifies this`stakes, this`stakeSystem, this`validatorSystem
      ensures Realizes(Cranks.DeactivateStake(old(View()), now, stakeIndex, index, key, splitKey, rent), r)
    {
      if splitKey in stakes {
        return Err(CallRefused);
      }
      :- Running(View());
      var stake :- GetStake(stakeSystem, stakeIndex, key);
      :- Need(stake.emergency == 0, StakeAccountIsEmergencyUnstaking);
      var validator :- Get(validatorSystem.list, index);
      var delta := StakeDelta(View());
      :- Need(delta < 0, UnstakingOnPositiveDelta);
      var unstakeDelta :- U64(-delta);
      :- CheckStake(stakes, key, stake.lamports, validator.vote);
      var plan :- PlanDeactivation(now, stake, validator, unstakeDelta);
      match plan {
        case Skip => r := Ok(());
        case Whole(_) => r := DeactivateWhole(now, stakeIndex, stake, index, validator);
        case Part(amount) => r := DeactivatePart(now, stakeIndex, stake, index, validator, amount, splitKey, rent);
      }
    }

    // How much of the stake account to unstake, capped by what the validator has over its target and by
    // the delta.
    method PlanDeactivation(now: Clock, stake: StakeRecord, validator: ValidatorRecord, unstakeDelta: nat)
      returns (r: Result<Cranks.Plan>)
      ensures r == Cranks.DeactivatePlan(View(), now, stake, validator, unstakeDelta)
    {
      var totalTarget := SatSub(validatorSystem.totalActive, unstakeDelta);
      var target :- StakeTarget(validatorSystem, validator, totalTarget);
      if validator.activeBalance <= target {
        return Ok(Cranks.Skip);
      }
      var fromValidator := validator.activeBalance - target;
      var accountTarget := SatSub(stake.lamports, if fromValidator > unstakeDelta then unstakeDelta else fromValidator);
      var least :- U64(2 * stakeSystem.minStake);
      if accountTarget < least {
        return Ok(Cranks.Whole(stake.lamports));
      }
      if validator.lastDeltaEpoch == now.epoch {
        return Ok(Cranks.Skip);
      }
      var amount := stake.lamports - accountTarget;
      :- Need(accountTarget < stake.lamports && amount <= unstakeDelta, AssertFailed);
      return Ok(Cranks.Part(amount));
    }

    // ---------- emergency_unstake and partial_unstake ----------

    // Moves `amount` from active to emergency cooling down, and writes back both records.
    method EmergencyCoolDown(stakeIndex: nat, stake: StakeRecord, index: nat, record: ValidatorRecord, amount: nat)
      returns (r: Result<()>)
      requires stakeIndex < |stakeSystem.list| && index < |validatorSystem.list|
      modifies this`stakeSystem, this`validatorSystem, this`emergencyCooling
      ensures Realizes(Cranks.EmergencyUnstaked(old(View()), stakeIndex, stake, index, record, amount), r)
    {
      var active :- Sub(record.activeBalance, amount, BalanceUnderflow);
      var total :- Sub(validatorSystem.totalActive, amount, BalanceUnderflow);
      validatorSystem := validatorSystem.(totalActive := total);
      emergencyCooling :- U64(emergencyCooling + amount);
      SetStake(stakeIndex, stake);
      SetValidator(index, record.(activeBalance := active));
      return Ok(());
    }

    method EmergencyUnstake(now: Clock, stakeIndex: nat, index: nat, key: Key) returns (r: Result<()>)
      modifies this`stakes, this`stakeSystem, this`validatorSystem, this`lastMoveEpoch, this`stakeMoved,
               this`emergencyCooling
      ensures Realizes(Cranks.EmergencyUnstake(old(View()), now, stakeIndex, index, key), r)
    {
      if paused {
        return Err(ProgramIsPaused);
      }
      var stake :- GetStake(stakeSystem, stakeIndex, key);
      var validator :- Get(validatorSystem.list, index);
      :- Need(validator.score == 0, EmergencyUnstakingFromNonZeroScoredValidator);
      :- CheckStake(stakes, key, stake.lamports, validator.vote);
      var amount := stake.lamports;
      var _ :- StakeHasMoved(amount, now);
      stakes :- StartDeactivation(stakes, key);
      :- Need(stake.emergency == 0, StakeAccountIsEmergencyUnstaking);
      r := EmergencyCoolDown(stakeIndex, stake.(emergency := 1), index, validator, amount);
    }

    method PartialWhole(now: Clock, stakeIndex: nat, stake: StakeRecord, index: nat, validator: ValidatorRecord)
      returns (r: Result<()>)
      requires stakeIndex < |stakeSystem.list| && index < |validatorSystem.list|
      modifies this`stakes, this`stakeSystem, this`validatorSystem, this`lastMoveEpoch, this`stakeMoved,
               this`emergencyCooling
      ensures Realizes(Cranks.PartialWhole(old(View()), now, stakeIndex, stake, index, validator), r)
    {
      hide StartDeactivation, Cranks.EmergencyUnstaked;
      stakes :- StartDeactivation(stakes, stake.account);
      var _ :- StakeHasMoved(stake.lamports, now);
      r := EmergencyCoolDown(stakeIndex, stake.(emergency := 1), index, validator, stake.lamports);
    }

    method PartialPart(now: Clock, stakeIndex: nat, stake: StakeRecord, index: nat, validator: ValidatorRecord,
                       amount: nat, splitKey: Key, rent: nat) returns (r: Result<()>)
      requires stakeIndex < |stakeSystem.list| && index < |validatorSystem.list|
      modifies this`stakes, this`stakeSystem, this`validatorSystem, this`lastMoveEpoch, this`stakeMoved,
               this`emergencyCooling
      ensures Realizes(Cranks.PartialPart(old(View()), now, stakeIndex, stake, index, validator, amount, splitKey,
                                          rent), r)
    {
      hide SplitStake, StartDeactivation, Cranks.EmergencyUnstaked, FeeApply, Sub;
      stakeSystem :- AddStake(stakeSystem, splitKey, amount, now.epoch, 1);
      stakes :- SplitStake(stakes, stake.account, amount, splitKey, rent);
      stakes :- StartDeactivation(stakes, splitKey);
      var left :- Sub(stake.lamports, amount, BalanceUnderflow);
      var _ :- StakeHasMoved(amount, now);
      r := EmergencyCoolDown(stakeIndex, stake.(lamports := left), index, validator, amount);
    }

    // How much of the stake account to deactivate, capped by what the validator has over its target.
    method PlanPartial(stake: StakeRecord, validator: ValidatorRecord, desired: nat) returns (r: Result<Cranks.Plan>)
      ensures r == Cranks.PartialPlan(View(), stake, validator, desired)
    {
      var totalTarget :- MoveTarget(View());
      var target :- StakeTarget(validatorSystem, validator, totalTarget);
      var least :- U64(target + stakeSystem.minStake);
      if validator.activeBalance <= least {
        return Ok(Cranks.Skip);
      }
      var fromValidator := validator.activeBalance - target;
      var amount := if desired > fromValidator then fromValidator else desired;
      var after := SatSub(stake.lamports, amount);
      return Ok(if after < stakeSystem.minStake then Cranks.Whole(stake.lamports) else Cranks.Part(amount));
    }

    method PartialUnstake(now: Clock, stakeIndex: nat, index: nat, desired: nat, key: Key, splitKey: Key, rent: nat)
      returns (r: Result<()>)
      modifies this`stakes, this`stakeSystem, this`validatorSystem, this`lastMoveEpoch, this`stakeMoved,
               this`emergencyCooling
      ensures Realizes(Cranks.PartialUnstake(old(View()), now, stakeIndex, index, desired, key, splitKey, rent), r)
    {
      hide CheckStake, Cranks.PartialPlan, Cranks.PartialWhole, Cranks.PartialPart;
      if splitKey in stakes {
        return Err(CallRefused);
      }
      :- Running(View());
      :- Need(desired >= stakeSystem.minStake, DesiredUnstakeTooLow);
      var validator :- Get(validatorSystem.list, index);
      var stake :- GetStake(stakeSystem, stakeIndex, key);
      :- Need(stake.emergency == 0, StakeAccountIsEmergencyUnstaking);
      :- CheckStake(stakes, key, stake.lamports, validator.vote);
      var plan :- PlanPartial(stake, validator, desired);
      match plan
      case Skip => return Ok(());
      case Whole(_) => r := PartialWhole(now, stakeIndex, stake, index, validator);
      case Part(amount) => r := PartialPart(now, stakeIndex, stake, index, validator, amount, splitKey, rent);
    }

    // ---------- redelegate ----------

    method MoveBalance(stakeIndex: nat, stake: StakeRecord, sourceIndex: nat, source: ValidatorRecord,
                       destIndex: nat, dest: ValidatorRecord, amount: nat) returns (r: Result<()>)
      requires stakeIndex < |stakeSystem.list| && sourceIndex < |validatorSystem.list|
               && destIndex < |validatorSystem.list|
      modifies this`stakeSystem, this`validatorSystem
      ensures Realizes(Cranks.Moved(old(View()), stakeIndex, stake, sourceIndex, source, destIndex, dest, amount), r)
    {
      var sourceActive :- Sub(source.activeBalance, amount, BalanceUnderflow);
      var destActive :- U64(dest.activeBalance + amount);
      SetStake(stakeIndex, stake);
      SetValidator(sourceIndex, source.(activeBalance := sourceActive));
      SetValidator(destIndex, dest.(activeBalance := destActive));
      return Ok(());
    }

    method RedelegateWhole(now: Clock, stakeIndex: nat, stake: StakeRecord, sourceIndex: nat, source: ValidatorRecord,
                           destIndex: nat, dest: ValidatorRecord, newKey: Key, rent: nat) returns (r: Result<()>)
      requires stakeIndex < |stakeSystem.list| && sourceIndex < |validatorSystem.list|
               && destIndex < |validatorSystem.list|
      modifies this`stakes, this`stakeSystem, this`validatorSystem, this`lastMoveEpoch, this`stakeMoved
      ensures Realizes(Cranks.RedelegateWhole(old(View()), now, stakeIndex, stake, sourceIndex, source, destIndex, dest,
                                              newKey, rent), r)
    {
      hide RedelegateStake, Cranks.Moved;
      var amount, emptied := stake.lamports, stake.(emergency := 0, lamports := 0);
      var _ :- StakeHasMoved(amount, now);
      stakes :- RedelegateStake(stakes, stake.account, dest.vote, newKey, rent);
      stakeSystem :- AddStake(stakeSystem, newKey, amount, now.epoch, 0);
      r := MoveBalance(stakeIndex, emptied, sourceIndex, source, destIndex, dest, amount);
    }

    method RedelegatePart(now: Clock, stakeIndex: nat, stake: StakeRecord, sourceIndex: nat, source: ValidatorRecord,
                          destIndex: nat, dest: ValidatorRecord, amount: nat, splitKey: Key, newKey: Key,
                          rent: nat) returns (r: Result<()>)
      requires stakeIndex < |stakeSystem.list| && sourceIndex < |validatorSystem.list|
               && destIndex < |validatorSystem.list|
      modifies this`stakes, this`stakeSystem, this`validatorSystem, this`lastMoveEpoch, this`stakeMoved
      ensures Realizes(Cranks.RedelegatePart(old(View()), now, stakeIndex, stake, sourceIndex, source, destIndex, dest,
                                             amount, splitKey, newKey, rent), r)
    {
      hide SplitStake, RedelegateStake, Cranks.Moved, FeeApply, Sub;
      stakeSystem :- AddStake(stakeSystem, splitKey, 0, now.epoch, 0);
      stakes :- SplitStake(stakes, stake.account, amount, splitKey, rent);
      var left :- Sub(stake.lamports, amount, BalanceUnderflow);
      var _ :- StakeHasMoved(amount, now);
      stakes :- RedelegateStake(stakes, splitKey, dest.vote, newKey, rent);
      stakeSystem :- AddStake(stakeSystem, newKey, amount, now.epoch, 0);
      r := MoveBalance(stakeIndex, stake.(lamports := left), sourceIndex, source, destIndex, dest, amount);
    }

    // How much of the stake account to move, capped by what the source has over its target and by what
    // the destination has under its own.
    method PlanRedelegation(stake: StakeRecord, source: ValidatorRecord, destIndex: nat, destVote: Key)
      returns (r: Result<Cranks.Plan>)
      ensures r == Cranks.RedelegatePlan(View(), stake, source, GetValidator(validatorSystem, destIndex, destVote))
    {
      var totalTarget :- MoveTarget(View());
      var sourceTarget :- StakeTarget(validatorSystem, source, totalTarget);
      var sourceLeast :- U64(sourceTarget + stakeSystem.minStake);
      if source.activeBalance < sourceLeast {
        return Ok(Cranks.Skip);
      }
      var fromSource := Min(source.activeBalance - sourceTarget, stake.lamports);
      var dest :- GetValidator(validatorSystem, destIndex, destVote);
      var destTarget :- StakeTarget(validatorSystem, dest, totalTarget);
      var destLeast :- U64(dest.activeBalance + stakeSystem.minStake);
      if destLeast > destTarget {
        return Ok(Cranks.Skip);
      }
      var amount := Min(destTarget - dest.activeBalance, fromSource);
      var after := stake.lamports - amount;
      return Ok(if after < stakeSystem.minStake then Cranks.Whole(stake.lamports) else Cranks.Part(amount));
    }

    method Redelegate(now: Clock, stakeIndex: nat, sourceIndex: nat, destIndex: nat, key: Key, destVote: Key,
                      splitKey: Key, newKey: Key, rent: nat) returns (r: Result<()>)
      modifies this`stakes, this`stakeSystem, this`validatorSystem, this`lastMoveEpoch, this`stakeMoved
      ensures Realizes(Cranks.Redelegate(old(View()), now, stakeIndex, sourceIndex, destIndex, key, destVote, splitKey,
                                         newKey, rent), r)
    {
      if splitKey in stakes || newKey in stakes || splitKey == newKey {
        return Err(CallRefused);
      }
      :- Running(View());
      :- Need(sourceIndex != destIndex, SourceAndDestValidatorsAreTheSame);
      var stake :- GetStake(stakeSystem, stakeIndex, key);
      :- Need(stake.emergency == 0, StakeAccountIsEmergencyUnstaking);
      var source :- Get(validatorSystem.list, sourceIndex);
      :- CheckStake(stakes, key, stake.lamports, source.vote);
      var plan :- PlanRedelegation(stake, source, destIndex, destVote);
      if plan.Skip? {
        return Ok(());
      }
      var dest :- GetValidator(validatorSystem, destIndex, destVote);
      if plan.Whole? {
        r := RedelegateWhole(now, stakeIndex, stake, sourceIndex, source, destIndex, dest, newKey, rent);
      } else {
        r := RedelegatePart(now, stakeIndex, stake, sourceIndex, source, destIndex, dest, plan.amount, splitKey, newKey,
                            rent);
      }
    }

    // ---------- merge_stakes ----------

    method MergeRecords(destIndex: nat, dest: StakeRecord, sourceIndex: nat, source: StakeRecord,
                        index: nat, validator: ValidatorRecord, extra: nat) returns (r: Result<()>)
      requires destIndex < |stakeSystem.list| && sourceIndex < |stakeSystem.list| && index < |validatorSystem.list|
      requires source.account in stakes
      modifies this`stakes, this`stakeSystem, this`validatorSystem
      ensures Realizes(Cranks.MergeRecords(old(View()), destIndex, dest, sourceIndex, source, index, validator, extra),
                       r)
    {
      hide WithdrawStake;
      var rent := stakes[source.account].rent;
      stakes :- MergeStake(stakes, dest.account, source.account, extra);
      var _ :- AddActive(index, validator, extra);
      SetStake(destIndex, dest.(lamports := stakes[dest.account].stake));
      // the last record takes the freed place, so the source is removed after the destination is set
      RemoveStake(sourceIndex);
      stakes :- WithdrawStake(stakes, dest.account, rent - extra);
      return Ok(());
    }

    method MergeStakes(destIndex: nat, sourceIndex: nat, index: nat, destKey: Key, sourceKey: Key, extra: nat)
      returns (r: Result<()>)
      modifies this`stakes, this`stakeSystem, this`validatorSystem
      ensures Realizes(Cranks.MergeStakes(old(View()), destIndex, sourceIndex, index, destKey, sourceKey, extra), r)
    {
      if paused {
        return Err(ProgramIsPaused);
      }
      var validator :- Get(validatorSystem.list, index);
      var dest :- GetStake(stakeSystem, destIndex, destKey);
      :- Cranks.CheckMergeable(stakes, dest, validator.vote);
      var source :- GetStake(stakeSystem, sourceIndex, sourceKey);
      :- Cranks.CheckMergeable(stakes, source, validator.vote);
      :- Need(stakes[sourceKey].lamports == stakes[sourceKey].stake + stakes[sourceKey].rent, StakeMustBeUpdated);
      r := MergeRecords(destIndex, dest, sourceIndex, source, index, validator, extra);
    }

    // ---------- update_active and update_deactivated ----------

    method Begin()
      modifies this`available, this`stakingCap, this`msolSupply
      ensures View() == Cranks.Begin(old(View()))
    {
      available := SatSub(reserve, config.rentExempt);
      if msolMint > msolSupply {
        stakingCap := 0;
      }
      msolSupply := msolMint;
    }

    method WithdrawToReserve(key: Key, amount: nat) returns (r: Result<()>)
      modifies this`stakes, this`reserve, this`available
      ensures Realizes(Cranks.WithdrawToReserve(old(View()), key, amount), r)
    {
      if amount > 0 {
        stakes :- WithdrawStake(stakes, key, amount);
        reserve :- U64(reserve + amount);
        available :- U64(available + amount);
      }
      return Ok(());
    }

    method MintProtocolFees(lamports: nat, treasuryReady: bool) returns (r: Result<()>)
      modifies this`msolMint, this`msolSupply
      ensures Realizes(Cranks.MintProtocolFees(old(View()), lamports, treasuryReady), r)
    {
      if !treasuryReady {
        return Ok(());
      }
      var fee := FeeApply(config.rewardFee, lamports);
      var msol :- MsolFromLamports(View(), fee);
      r := Mint(msol);
    }

    method UpdatePrice() returns (r: Result<()>)
      modifies this`msolPrice
      ensures Realizes(Cranks.UpdatePrice(old(View())), r)
    {
      msolPrice :- MsolToSol(View(), PRICE_DENOMINATOR);
      return Ok(());
    }

    method TakeExtra(key: Key, extra: nat, treasuryReady: bool) returns (r: Result<()>)
      modifies this`stakes, this`reserve, this`available, this`msolMint, this`msolSupply
      ensures Realizes(Cranks.TakeExtra(old(View()), key, extra, treasuryReady), r)
    {
      if extra > 0 {
        var _ :- WithdrawToReserve(key, extra);
        r := MintProtocolFees(extra, treasuryReady);
      } else {
        r := Ok(());
      }
    }

    // Rewards raise the validator's balance and the total; a slash lowers both.
    method ObserveDelegation(index: nat, record: ValidatorRecord, before: nat, delegated: nat, treasuryReady: bool)
      returns (r: Result<()>)
      requires index < |validatorSystem.list|
      modifies this`validatorSystem, this`msolMint, this`msolSupply
      ensures Realizes(Cranks.ObserveDelegation(old(View()), index, record, before, delegated, treasuryReady), r)
    {
      var active, total;
      if delegated >= before {
        var rewards := delegated - before;
        var _ :- MintProtocolFees(rewards, treasuryReady);
        active :- U64(record.activeBalance + rewards);
        total :- U64(validatorSystem.totalActive + rewards);
      } else {
        var slashed := before - delegated;
        active := SatSub(record.activeBalance, slashed);
        total := SatSub(validatorSystem.totalActive, slashed);
      }
      validatorSystem := validatorSystem.(totalActive := total);
      SetValidator(index, record.(activeBalance := active));
      return Ok(());
    }

    method BookActive(now: Clock, stakeIndex: nat, stake: StakeRecord, index: nat, validator: ValidatorRecord,
                      account: StakeAccount, treasuryReady: bool) returns (r: Result<()>)
      requires stakeIndex < |stakeSystem.list| && index < |validatorSystem.list|
      modifies this`stakes, this`stakeSystem, this`validatorSystem, this`reserve, this`available, this`msolMint,
               this`msolSupply
      ensures Realizes(Cranks.BookActive(old(View()), now, stakeIndex, stake, index, validator, account, treasuryReady),
                       r)
    {
      var balance :- Sub(account.lamports, account.rent, Overflow);
      var extra := SatSub(balance, account.stake);
      var _ :- TakeExtra(stake.account, extra, treasuryReady);
      var _ :- ObserveDelegation(index, validator, stake.lamports, account.stake, treasuryReady);
      SetStake(stakeIndex, stake.(epoch := now.epoch, lamports := account.stake));
      return Ok(());
    }

    method UpdateActive(now: Clock, stakeIndex: nat, index: nat, key: Key, treasuryReady: bool) returns (r: Result<()>)
      modifies this`stakes, this`stakeSystem, this`validatorSystem, this`reserve, this`available, this`msolMint,
               this`msolSupply, this`stakingCap, this`msolPrice
      ensures Realizes(Cranks.UpdateActive(old(View()), now, stakeIndex, index, key, treasuryReady), r)
    {
      hide Cranks.BookActive, Cranks.UpdatePrice;
      if paused {
        return Err(ProgramIsPaused);
      }
      var _ :- U64(Control(View()));
      var _ :- U64(available + config.rentExempt);
      Begin();
      var stake :- GetStake(stakeSystem, stakeIndex, key);
      :- Need(key in stakes, RequiredDelegatedStake);
      var account := stakes[key];
      var validator :- GetValidator(validatorSystem, index, account.voter);
      :- Need(!account.deactivating, RequiredActiveStake);
      var _ :- BookActive(now, stakeIndex, stake, index, validator, account, treasuryReady);
      var _ :- UpdatePrice();
      :- Need(available + config.rentExempt == reserve, AssertFailed);
      return Ok(());
    }

    method LeaveCooling(stake: StakeRecord) returns (r: Result<()>)
      modifies this`stakeSystem, this`emergencyCooling
      ensures Realizes(Cranks.LeaveCooling(old(View()), stake), r)
    {
      if stake.lamports != 0 {
        if stake.emergency == 0 {
          var cooling :- Sub(stakeSystem.delayedCooling, stake.lamports, BalanceUnderflow);
          stakeSystem := stakeSystem.(delayedCooling := cooling);
        } else {
          emergencyCooling :- Sub(emergencyCooling, stake.lamports, BalanceUnderflow);
        }
      }
      return Ok(());
    }

    method Drain(key: Key, account: StakeAccount) returns (r: Result<()>)
      modifies this`stakes, this`reserve, this`available
      ensures Realizes(Cranks.Drain(old(View()), key, account), r)
    {
      var _ :- WithdrawToReserve(key, account.lamports);
      reserve :- Sub(reserve, account.rent, ReserveShort);
      available :- Sub(available, account.rent, ReserveUnderflow);
      return Ok(());
    }

    method DropCooled(stakeIndex: nat, stake: StakeRecord) returns (r: Result<()>)
      requires stakeIndex < |stakeSystem.list|
      modifies this`stakeSystem, this`emergencyCooling, this`stakes
      ensures Realizes(Cranks.DropCooled(old(View()), stakeIndex, stake), r)
    {
      var _ :- LeaveCooling(stake);
      RemoveStake(stakeIndex);
      stakes := stakes - {stake.account};
      return Ok(());
    }

    method BookDeactivated(stakeIndex: nat, stake: StakeRecord, account: StakeAccount, treasuryReady: bool)
      returns (r: Result<()>)
      requires stakeIndex < |stakeSystem.list|
      modifies this`stakes, this`stakeSystem, this`emergencyCooling, this`reserve, this`available, this`msolMint,
               this`msolSupply
      ensures Realizes(Cranks.BookDeactivated(old(View()), stakeIndex, stake, account, treasuryReady), r)
    {
      var balance :- Sub(account.lamports, account.rent, Overflow);
      var _ :- CooledFees(stake.lamports, balance, treasuryReady);
      var _ :- Drain(stake.account, account);
      r := DropCooled(stakeIndex, stake);
    }

    // The fee on what a cooled-down account earned; a slash pays none.
    method CooledFees(before: nat, balance: nat, treasuryReady: bool) returns (r: Result<()>)
      modifies this`msolMint, this`msolSupply
      ensures Realizes(Cranks.CooledFees(old(View()), before, balance, treasuryReady), r)
    {
      if balance >= before {
        var rewards := balance - before;
        r := MintProtocolFees(rewards, treasuryReady);
      } else {
        r := Ok(());
      }
    }

    method UpdateDeactivated(stakeIndex: nat, key: Key, treasuryReady: bool) returns (r: Result<()>)
      modifies this`stakes, this`stakeSystem, this`emergencyCooling, this`reserve, this`available, this`msolMint,
               this`msolSupply, this`stakingCap, this`msolPrice
      ensures Realizes(Cranks.UpdateDeactivated(old(View()), stakeIndex, key, treasuryReady), r)
    {
      if paused {
        return Err(ProgramIsPaused);
      }
      var _ :- U64(Control(View()));
      var _ :- U64(available + config.rentExempt);
      Begin();
      var stake :- GetStake(stakeSystem, stakeIndex, key);
      :- Need(key in stakes, RequiredDelegatedStake);
      :- Need(stakes[key].deactivating, RequiredDeactivatingStake);
      var _ :- BookDeactivated(stakeIndex, stake, stakes[key], treasuryReady);
      r := UpdatePrice();
    }

    // ---------- users ----------

    method Deposit(lamports: nat, funds: nat) returns (r: Result<()>)
      modifies this`msolLeg, this`solLeg, this`reserve, this`available, this`msolMint, this`msolSupply
      ensures Realizes(Users.Deposit(old(View()), lamports, funds), r)
    {
      if paused {
        return Err(ProgramIsPaused);
      }
      :- Need(lamports >= config.minDeposit, DepositAmountIsTooLow);
      :- Need(funds >= lamports, NotEnoughUserFunds);
      :- Need(msolMint <= msolSupply, UnregisteredMsolMinted);
      var order :- OrderMsol(lamports);
      r := Fill(lamports, order);
    }

    method Fill(lamports: nat, order: Users.Order) returns (r: Result<()>)
      modifies this`msolLeg, this`solLeg, this`reserve, this`available, this`msolMint, this`msolSupply
      ensures Realizes(Users.Fill(old(View()), lamports, order), r)
    {
      hide Users.ToReserve, MintMsol;
      // the pool sells first
      msolLeg :- Sub(msolLeg, order.swapped, BalanceUnderflow);
      solLeg :- U64(solLeg + order.solSwapped);
      // the rest goes to the reserve, and the rest of the order is minted
      var deposited :- Sub(lamports, order.solSwapped, BalanceUnderflow);
      var _ :- PutInReserve(deposited);
      var minted :- Sub(order.bought, order.swapped, BalanceUnderflow);
      r := Mint(minted);
    }

    // The mSOL bought, the part the pool's leg sells, and the lamports paid for that part.
    method OrderMsol(lamports: nat) returns (r: Result<Users.Order>)
      ensures r == Users.DepositOrder(View(), lamports)
    {
      var bought :- MsolFromLamports(View(), lamports);
      var swapped, solSwapped := Min(bought, msolLeg), 0;
      if swapped > 0 {
        if bought == swapped {
          solSwapped := lamports;
        } else {
          solSwapped :- MsolToSol(View(), swapped);
        }
      }
      return Ok(Users.Order(bought, swapped, solSwapped));
    }

    method PutInReserve(lamports: nat) returns (r: Result<()>)
      modifies this`reserve, this`available
      ensures Realizes(Users.ToReserve(old(View()), lamports), r)
    {
      if lamports > 0 {
        var cap := StakingCapOk(View(), lamports);
        :- cap;
        reserve :- U64(reserve + lamports);
        available := available + lamports;
      }
      return Ok(());
    }

    method DepositStakeAccount(now: Clock, key: Key, account: StakeAccount, activationEpoch: nat, index: nat)
      returns (r: Result<()>)
      modifies this`validatorSystem, this`stakeSystem, this`stakes, this`msolMint, this`msolSupply
      ensures Realizes(Users.DepositStakeAccount(old(View()), now, key, account, activationEpoch, index), r)
    {
      if paused {
        return Err(ProgramIsPaused);
      }
      :- Need(msolMint <= msolSupply, UnregisteredMsolMinted);
      :- Need(!account.deactivating, RequiredActiveStake);
      :- Need(now.epoch >= activationEpoch, DepositingNotActivatedStake);
      :- Need(account.stake >= stakeSystem.minStake, TooLowDelegationInDepositingStake);
      :- Need(account.lamports == account.stake + account.rent, WrongStakeBalance);
      :- StakingCapOk(View(), account.stake);
      var validator :- GetValidator(validatorSystem, index, account.voter);
      r := TakeIn(now, key, account, index, validator);
    }

    method TakeIn(now: Clock, key: Key, account: StakeAccount, index: nat, validator: ValidatorRecord)
      returns (r: Result<()>)
      requires index < |validatorSystem.list|
      modifies this`validatorSystem, this`stakeSystem, this`stakes, this`msolMint, this`msolSupply
      ensures Realizes(Users.TakeIn(old(View()), now, key, account, index, validator), r)
    {
      hide MsolFromLamports, AddStake, MintMsol, U64;
      var active :- U64(validator.activeBalance + account.stake);
      SetValidator(index, validator.(activeBalance := active));
      :- Need(key !in stakes, RedepositingMarinadeStake);
      stakeSystem :- AddStake(stakeSystem, key, account.stake, now.epoch, 0);
      stakes := stakes[key := account];
      // priced before the deposit counts as active
      var msol :- MsolFromLamports(View(), account.stake);
      var _ :- Mint(msol);
      var total :- U64(validatorSystem.totalActive + account.stake);
      validatorSystem := validatorSystem.(totalActive := total);
      return Ok(());
    }

    method Burn(amount: nat) returns (r: Result<()>)
      modifies this`msolMint, this`msolSupply
      ensures Realizes(Users.BurnMsol(old(View()), amount), r)
    {
      msolMint :- Sub(msolMint, amount, CallRefused);
      msolSupply :- Sub(msolSupply, amount, BalanceUnderflow);
      return Ok(());
    }

    method HandOut(stakeIndex: nat, stake: StakeRecord, index: nat, validator: ValidatorRecord, lamports: nat,
                   burned: nat, splitKey: Key, rent: nat) returns (r: Result<()>)
      requires stakeIndex < |stakeSystem.list| && index < |validatorSystem.list| && lamports <= stake.lamports
      modifies this`validatorSystem, this`stakeSystem, this`stakes, this`msolMint, this`msolSupply
      ensures Realizes(Users.HandOut(old(View()), stakeIndex, stake, index, validator, lamports, burned, splitKey,
                                     rent), r)
    {
      hide SplitStake, Users.BurnMsol;
      var _ :- Burn(burned);
      stakes :- SplitStake(stakes, stake.account, lamports, splitKey, rent);
      var active :- Sub(validator.activeBalance, lamports, BalanceUnderflow);
      var total :- Sub(validatorSystem.totalActive, lamports, BalanceUnderflow);
      validatorSystem := validatorSystem.(totalActive := total);
      SetStake(stakeIndex, stake.(lamports := stake.lamports - lamports));
      SetValidator(index, validator.(activeBalance := active));
      // the user becomes staker and withdrawer of the new account
      stakes := stakes - {splitKey};
      return Ok(());
    }

    method WithdrawStakeAccount(stakeIndex: nat, index: nat, msol: nat, funds: nat, key: Key, splitKey: Key,
                                rent: nat, treasuryReady: bool) returns (r: Result<()>)
      modifies this`validatorSystem, this`stakeSystem, this`stakes, this`msolMint, this`msolSupply
      ensures Realizes(Users.WithdrawStakeAccount(old(View()), stakeIndex, index, msol, funds, key, splitKey, rent,
                                                  treasuryReady), r)
    {
      hide MsolToSol, MsolFromLamports, CheckMsolSource, CheckStake, Users.HandOut;
      if splitKey in stakes {
        return Err(CallRefused);
      }
      :- Running(View());
      :- Need(config.withdrawEnabled, WithdrawStakeAccountIsNotEnabled);
      :- CheckMsolSource(View(), msol, funds);
      var stake :- GetStake(stakeSystem, stakeIndex, key);
      :- Need(stake.emergency == 0, StakeAccountIsEmergencyUnstaking);
      :- Need(key in stakes, RequiredDelegatedStake);
      :- Need(!stakes[key].deactivating, RequiredActiveStake);
      var validator :- Get(validatorSystem.list, index);
      :- CheckStake(stakes, key, stake.lamports, validator.vote);
      var lamports :- Users.SplitLamports(View(), msol);
      :- Need(lamports >= stakeSystem.minStake, WithdrawStakeLamportsIsTooLow);
      :- Need(stake.lamports >= lamports, SelectedStakeAccountHasNotEnoughFunds);
      :- Need(stake.lamports - lamports >= stakeSystem.minStake, StakeAccountRemainderTooLow);
      var fees := 0;
      if treasuryReady {
        var shares :- MsolFromLamports(View(), lamports);
        fees := SatSub(msol, shares);
      }
      r := HandOut(stakeIndex, stake, index, validator, lamports, msol - fees, splitKey, rent);
    }

    method OrderUnstake(now: Clock, msol: nat, funds: nat, ticketKey: Key, beneficiary: Key) returns (r: Result<()>)
      modifies this`ticketBalance, this`ticketCount, this`msolMint, this`msolSupply, this`tickets
      ensures Realizes(Users.OrderUnstake(old(View()), now, msol, funds, ticketKey, beneficiary), r)
    {
      hide MsolToSol, FeeCentsApply, Users.BurnMsol, CheckMsolSource, U64, Sub;
      if ticketKey in tickets {
        return Err(CallRefused);
      }
      :- Running(View());
      :- CheckMsolSource(View(), msol, funds);
      var value :- MsolToSol(View(), msol);
      var lamports :- Sub(value, FeeCentsApply(config.delayedFee, value), BalanceUnderflow);
      :- Need(lamports >= config.minWithdraw, WithdrawAmountIsTooLow);
      ticketBalance :- U64(ticketBalance + lamports);
      ticketCount :- U64(ticketCount + 1);
      var _ :- Burn(msol);
      var created :- U64(now.epoch + if now.epoch == stakeSystem.lastDeltaEpoch then 1 else 0);
      tickets := tickets[ticketKey := Ticket(beneficiary, lamports, created)];
      return Ok(());
    }

    method Claim(now: Clock, ticketKey: Key, receiver: Key) returns (r: Result<()>)
      modifies this`ticketBalance, this`ticketCount, this`tickets, this`reserve, this`available
      ensures Realizes(Users.Claim(old(View()), now, ticketKey, receiver), r)
    {
      if ticketKey !in tickets {
        return Err(CallRefused);
      }
      var ticket := tickets[ticketKey];
      :- Need(receiver == ticket.beneficiary, WrongBeneficiary);
      :- Running(View());
      :- Users.CheckTicket(now, ticket);
      var claimable :- Sub(reserve, config.rentExempt, BalanceUnderflow);
      if ticket.lamports > claimable {
        return Err(TicketNotReady);
      }
      r := PayTicket(ticketKey, ticket.lamports);
    }

    method PayTicket(ticketKey: Key, lamports: nat) returns (r: Result<()>)
      requires lamports <= reserve
      modifies this`ticketBalance, this`ticketCount, this`tickets, this`reserve, this`available
      ensures Realizes(Users.PayTicket(old(View()), ticketKey, lamports), r)
    {
      ticketBalance :- Sub(ticketBalance, lamports, BalanceUnderflow);
      ticketCount :- Sub(ticketCount, 1, BalanceUnderflow);
      tickets := tickets - {ticketKey};
      reserve := reserve - lamports;
      available :- Sub(available, lamports, ReserveUnderflow);
      return Ok(());
    }

    // ---------- the liquidity pool ----------

    method LiquidUnstake(msol: nat, funds: nat, treasuryReady: bool) returns (r: Result<()>)
      modifies this`solLeg, this`msolLeg
      ensures Realizes(Pools.LiquidUnstake(old(View()), msol, funds, treasuryReady), r)
    {
      hide MsolToSol, CheckMsolSource, Pools.LinearFee;
      if paused {
        return Err(ProgramIsPaused);
      }
      :- CheckMsolSource(View(), msol, funds);
      var leg := SatSub(solLeg, config.rentExempt);
      var lamports :- MsolToSol(View(), msol);
      var feePoints := liqPool.maxFee;
      if lamports < leg {
        feePoints :- Pools.LinearFee(liqPool, leg - lamports);
      }
      var fee := FeeApply(feePoints, msol);
      var sold :- Sub(msol, fee, BalanceUnderflow);
      var out :- MsolToSol(View(), sold);
      var needed :- U64(out + config.rentExempt);
      if needed > solLeg {
        return Err(InsufficientLiquidity);
      }
      :- Need(out >= config.minWithdraw, WithdrawAmountIsTooLow);
      var cut := if treasuryReady then FeeApply(liqPool.treasuryCut, fee) else 0;
      var kept :- Sub(msol, cut, BalanceUnderflow);
      solLeg := solLeg - out;
      msolLeg :- U64(msolLeg + kept);
      return Ok(());
    }

    method AddLiquidity(lamports: nat, funds: nat) returns (r: Result<()>)
      modifies this`solLeg, this`lpMint, this`liqPool
      ensures Realizes(Pools.AddLiquidity(old(View()), lamports, funds), r)
    {
      hide SharesFromValue, ValueFromShares, Sub;
      if paused {
        return Err(ProgramIsPaused);
      }
      :- Need(lamports >= config.minDeposit, DepositAmountIsTooLow);
      :- Need(lamports <= funds, NotEnoughUserFunds);
      var newLeg :- U64(solLeg + lamports);
      :- Need(newLeg <= liqPool.solCap, LiquidityIsCapped);
      :- Need(lpMint <= liqPool.lpSupply, UnregisteredLPMinted);
      liqPool := liqPool.(lpSupply := lpMint);
      // the pool's value before the deposit
      assert MsolToSol(View(), msolLeg) == MsolToSol(old(View()), msolLeg);
      hide MsolToSol;
      var sol :- Sub(solLeg, config.rentExempt, BalanceUnderflow);
      var msolValue :- MsolToSol(View(), msolLeg);
      var value :- U64(sol + msolValue);
      var shares :- SharesFromValue(lamports, value, liqPool.lpSupply);
      solLeg := newLeg;
      lpMint :- U64(lpMint + shares);
      liqPool := liqPool.(lpSupply := liqPool.lpSupply + shares);
      return Ok(());
    }

    method RemoveLiquidity(tokens: nat, funds: nat) returns (r: Result<()>)
      modifies this`solLeg, this`msolLeg, this`lpMint, this`liqPool
      ensures Realizes(Pools.RemoveLiquidity(old(View()), tokens, funds), r)
    {
      if paused {
        return Err(ProgramIsPaused);
      }
      :- Need(tokens <= funds <= lpMint, NotEnoughUserFunds);
      if lpMint <= liqPool.lpSupply {
        liqPool := liqPool.(lpSupply := lpMint);
      }
      var out :- PayoutOf(tokens);
      r := PayOut(tokens, out);
    }

    method PayOut(tokens: nat, out: Pools.Payout) returns (r: Result<()>)
      requires tokens <= lpMint
      modifies this`solLeg, this`msolLeg, this`lpMint, this`liqPool
      ensures Realizes(Pools.PayOut(old(View()), tokens, old(liqPool.lpSupply), out), r)
    {
      solLeg :- Sub(solLeg, out.sol, CallRefused);
      msolLeg :- Sub(msolLeg, out.msol, CallRefused);
      lpMint := lpMint - tokens;
      var supply :- Sub(liqPool.lpSupply, tokens, BalanceUnderflow);
      liqPool := liqPool.(lpSupply := supply);
      return Ok(());
    }

    method PayoutOf(tokens: nat) returns (r: Result<Pools.Payout>)
      ensures r == Pools.PayoutOf(View(), tokens, liqPool.lpSupply)
    {
      var sol :- Sub(solLeg, config.rentExempt, BalanceUnderflow);
      var solOut :- Proportional(tokens, sol, liqPool.lpSupply);
      var msolOut :- Proportional(tokens, msolLeg, liqPool.lpSupply);
      var msolValue :- MsolToSol(View(), msolOut);
      var value :- U64(solOut + msolValue);
      :- Need(value >= config.minWithdraw, WithdrawAmountIsTooLow);
      return Ok(Pools.Payout(solOut, msolOut));
    }

    // ---------- the validator list ----------

    method AddValidator(vote: Key, score: u32, bump: u8) returns (r: Result<()>)
      modifies this`validatorSystem
      ensures Realizes(Admin.AddValidator(old(View()), vote, score, bump), r)
    {
      if Admin.Listed(validatorSystem.list, vote) {
        return Err(CallRefused);
      }
      :- Running(View());
      :- Need(|validatorSystem.list| < validatorSystem.capacity, ListOverflow);
      validatorSystem := validatorSystem.(list := validatorSystem.list
                                          + [ValidatorRecord(vote, 0, score, NEVER, bump)]);
      var total :- U32(validatorSystem.totalScore + score);
      validatorSystem := validatorSystem.(totalScore := total);
      return Ok(());
    }

    method RemoveValidator(index: nat, vote: Key) returns (r: Result<()>)
      modifies this`validatorSystem
      ensures Realizes(Admin.RemoveValidator(old(View()), index, vote), r)
    {
      if paused {
        return Err(ProgramIsPaused);
      }
      var validator :- GetValidator(validatorSystem, index, vote);
      :- Need(validator.activeBalance == 0, RemovingValidatorWithBalance);
      var total :- Sub(validatorSystem.totalScore, validator.score, BalanceUnderflow);
      validatorSystem := validatorSystem.(totalScore := total);
      validatorSystem := validatorSystem.(list := SwapRemove(validatorSystem.list, index));
      return Ok(());
    }

    method SetValidatorScore(index: nat, vote: Key, score: u32) returns (r: Result<()>)
      modifies this`validatorSystem
      ensures Realizes(Admin.SetValidatorScore(old(View()), index, vote, score), r)
    {
      if paused {
        return Err(ProgramIsPaused);
      }
      var validator :- GetValidator(validatorSystem, index, vote);
      var others :- Sub(validatorSystem.totalScore, validator.score, BalanceUnderflow);
      var total :- U32(others + score);
      validatorSystem := validatorSystem.(totalScore := total);
      SetValidator(index, validator.(score := score));
      return Ok(());
    }

    // ---------- the runtime ----------

    method RestoreSystems(c: Chain)
      modifies this`config, this`stakeSystem, this`validatorSystem, this`liqPool, this`paused
      ensures config == c.config && stakeSystem == c.stakeSystem && validatorSystem == c.validatorSystem
      ensures liqPool == c.liqPool && paused == c.paused
    {
      config, stakeSystem, validatorSystem, liqPool, paused :=
        c.config, c.stakeSystem, c.validatorSystem, c.liqPool, c.paused;
    }

    method RestoreTotals(c: Chain)
      modifies this`available, this`msolSupply, this`msolPrice, this`ticketCount, this`ticketBalance, this`stakingCap,
               this`emergencyCooling, this`lastMoveEpoch, this`stakeMoved
      ensures available == c.available && msolSupply == c.msolSupply && msolPrice == c.msolPrice
      ensures ticketCount == c.ticketCount && ticketBalance == c.ticketBalance && stakingCap == c.stakingCap
      ensures emergencyCooling == c.emergencyCooling && lastMoveEpoch == c.lastMoveEpoch && stakeMoved == c.stakeMoved
    {
      available, msolSupply, msolPrice := c.available, c.msolSupply, c.msolPrice;
      ticketCount, ticketBalance, stakingCap := c.ticketCount, c.ticketBalance, c.stakingCap;
      emergencyCooling, lastMoveEpoch, stakeMoved := c.emergencyCooling, c.lastMoveEpoch, c.stakeMoved;
    }

    method Restore(c: Chain)
      modifies this
      ensures View() == c
    {
      RestoreSystems(c);
      RestoreTotals(c);
      stakes, tickets, reserve, msolMint := c.stakes, c.tickets, c.reserve, c.msolMint;
      solLeg, msolLeg, lpMint := c.solLeg, c.msolLeg, c.lpMint;
    }

    // Configuration and what happens outside the program take their effect in one assignment.
    method Apply(spec: Result<Chain>) returns (r: Result<()>)
      modifies this
      ensures Realizes(spec, r)
    {
      var c :- spec;
      Restore(c);
      return Ok(());
    }

    method DispatchUser(now: Clock, a: Machine.Action) returns (r: Result<()>)
      requires Machine.IsUser(a)
      modifies this
      ensures Realizes(Machine.UserStep(old(View()), now, a), r)
    {
      match a
      case Deposit(lamports, funds) => r := Deposit(lamports, funds);
      case DepositStakeAccount(key, account, activationEpoch, index) =>
        r := DepositStakeAccount(now, key, account, activationEpoch, index);
      case WithdrawStakeAccount(stakeIndex, index, msol, funds, key, splitKey, rent, ready) =>
        r := WithdrawStakeAccount(stakeIndex, index, msol, funds, key, splitKey, rent, ready);
      case OrderUnstake(msol, funds, ticketKey, beneficiary) =>
        r := OrderUnstake(now, msol, funds, ticketKey, beneficiary);
      case Claim(ticketKey, receiver) => r := Claim(now, ticketKey, receiver);
    }

    method DispatchPool(a: Machine.Action) returns (r: Result<()>)
      requires Machine.IsPool(a)
      modifies this
      ensures Realizes(Machine.PoolStep(old(View()), a), r)
    {
      match a
      case LiquidUnstake(msol, funds, ready) => r := LiquidUnstake(msol, funds, ready);
      case AddLiquidity(lamports, funds) => r := AddLiquidity(lamports, funds);
      case RemoveLiquidity(tokens, funds) => r := RemoveLiquidity(tokens, funds);
    }

    method DispatchRebalance(now: Clock, a: Machine.Action) returns (r: Result<()>)
      requires Machine.IsRebalance(a)
      modifies this
      ensures Realizes(Machine.RebalanceStep(old(View()), now, a), r)
    {
      match a
      case StakeReserve(index, vote, newKey, rent) => r := StakeReserve(now, index, vote, newKey, rent);
      case DeactivateStake(stakeIndex, index, key, splitKey, rent) =>
        r := DeactivateStake(now, stakeIndex, index, key, splitKey, rent);
      case EmergencyUnstake(stakeIndex, index, key) => r := EmergencyUnstake(now, stakeIndex, index, key);
      case PartialUnstake(stakeIndex, index, desired, key, splitKey, rent) =>
        r := PartialUnstake(now, stakeIndex, index, desired, key, splitKey, rent);
      case Redelegate(stakeIndex, sourceIndex, destIndex, key, destVote, splitKey, newKey, rent) =>
        r := Redelegate(now, stakeIndex, sourceIndex, destIndex, key, destVote, splitKey, newKey, rent);
    }

    method DispatchUpkeep(now: Clock, a: Machine.Action) returns (r: Result<()>)
      requires Machine.IsUpdate(a) || a.MergeStakes?
      modifies this
      ensures Realizes(Machine.UpkeepStep(old(View()), now, a), r)
    {
      match a
      case UpdateActive(stakeIndex, index, key, ready) => r := UpdateActive(now, stakeIndex, index, key, ready);
      case UpdateDeactivated(stakeIndex, key, ready) => r := UpdateDeactivated(stakeIndex, key, ready);
      case MergeStakes(destIndex, sourceIndex, index, destKey, sourceKey, extra) =>
        r := MergeStakes(destIndex, sourceIndex, index, destKey, sourceKey, extra);
    }

    method DispatchAdmin(a: Machine.Action) returns (r: Result<()>)
      requires Machine.IsAdmin(a)
      modifies this
      ensures Realizes(Machine.AdminStep(old(View()), a), r)
    {
      if a.AddValidator? {
        r := AddValidator(a.vote, a.score, a.bump);
      } else if a.RemoveValidator? {
        r := RemoveValidator(a.index, a.vote);
      } else if a.SetValidatorScore? {
        r := SetValidatorScore(a.index, a.vote, a.score);
      } else {
        r := Apply(Machine.AdminStep(View(), a));
      }
    }

    method Dispatch(e: Machine.Event) returns (r: Result<()>)
      modifies this
      ensures Realizes(Machine.Step(old(View()), e), r)
    {
      var a := e.action;
      if Machine.Outside(a) {
        r := Apply(Machine.OutsideStep(View(), a));
      } else if Machine.IsUser(a) {
        r := DispatchUser(e.now, a);
      } else if Machine.IsPool(a) {
        r := DispatchPool(a);
      } else if Machine.IsRebalance(a) {
        r := DispatchRebalance(e.now, a);
      } else if Machine.IsAdmin(a) {
        r := DispatchAdmin(a);
      } else {
        r := DispatchUpkeep(e.now, a);
      }
    }

    /** The ledger's invariant. */
    ghost predicate Valid()
      reads this
    {
      Ledger.Inv(View())
    }

    /** One transaction: the instruction, undone if it fails. It keeps the invariant, and never fails on the
        books that the invariant is about. */
    method Execute(e: Machine.Event) returns (r: Result<()>)
      requires Valid()
      modifies this
      ensures Valid() && View() == Machine.Exec(old(View()), e)
      ensures if r.Ok? then Machine.Step(old(View()), e).Ok? else Machine.Step(old(View()), e) == Err(r.error)
      ensures r != Err(BalanceUnderflow) && r != Err(AssertFailed)
    {
      var before := View();
      Invariants.StepIsSound(before, e);
      r := Dispatch(e);
      if r.Err? {
        Restore(before);
      }
    }
  }
}
