/** Every crank keeps the invariant, and in a state that satisfies it no subtraction from a validator
    balance, a record or a total underflows, and neither of the asserts on the reserve and the unstake
    delta fails. The subtraction from the virtual reserve balance is the subject of `Reserve`. */
module CrankBooks {
  import opened Results
  import opened Calc
  import opened Sums
  import opened Records
  import opened State
  import opened Cranks
  import opened Ledger

  /** An instruction that keeps the invariant when it succeeds, and never fails on a subtraction from its
      books or an assert about them. It may fail on the virtual reserve balance or without a move target. */
  ghost predicate Sound(r: Result<Chain>) {
    && (r.Ok? ==> Books(r.value))
    && r != Err(BalanceUnderflow)
    && r != Err(AssertFailed)
  }

  /** Neither tickets, tokens, the pool nor the configuration change, and as many lamports leave the
      virtual reserve as the real one. */
  ghost predicate SameFunds(c: Chain, c': Chain) {
    && c'.config == c.config && c'.liqPool == c.liqPool && c'.stakeSystem.minStake == c.stakeSystem.minStake
    && c'.tickets == c.tickets && c'.ticketBalance == c.ticketBalance && c'.ticketCount == c.ticketCount
    && c'.msolMint == c.msolMint && c'.msolSupply == c.msolSupply && c'.msolLeg == c.msolLeg
    && c'.lpMint == c.lpMint && c'.solLeg == c.solLeg && c'.msolPrice == c.msolPrice
    && c'.reserve - c'.available == c.reserve - c.available
  }

  /** The record of stake moved this epoch is untouched. */
  ghost predicate KeepsMoves(c: Chain, r: Result<Chain>) {
    r.Ok? ==> r.value.lastMoveEpoch == c.lastMoveEpoch && r.value.stakeMoved == c.stakeMoved
  }

  /** A sound instruction that only moves lamports between the places the pool controls. */
  ghost predicate Rebalances(c: Chain, r: Result<Chain>) {
    && Sound(r)
    && (r.Ok? ==> SameFunds(c, r.value) && Control(r.value) == Control(c))
  }

  /** The record and validator an instruction found, and the account they are about. */
  ghost predicate Found(c: Chain, stakeIndex: nat, stake: StakeRecord, index: nat, validator: ValidatorRecord) {
    && stakeIndex < |c.stakeSystem.list| && c.stakeSystem.list[stakeIndex] == stake
    && index < |c.validatorSystem.list| && c.validatorSystem.list[index] == validator
    && stake.account in c.stakes
    && c.stakes[stake.account].voter == validator.vote
    && c.stakes[stake.account].stake == stake.lamports
  }

  lemma FoundCovered(c: Chain, stakeIndex: nat, stake: StakeRecord, index: nat, validator: ValidatorRecord)
    requires Books(c) && Found(c, stakeIndex, stake, index, validator)
    requires !c.stakes[stake.account].deactivating
    ensures stake.lamports <= validator.activeBalance <= c.validatorSystem.totalActive
    ensures BucketOf(c.stakes, stake) == Active(validator.vote)
  {
    ActiveCovered(c, stakeIndex, index);
  }

  // ---------- stake_reserve ----------

  lemma StakeKeepsBooks(c: Chain, now: Clock, index: nat, validator: ValidatorRecord, amount: nat, newKey: Key,
                        rent: nat)
    requires Books(c) && index < |c.validatorSystem.list| && c.validatorSystem.list[index] == validator
    ensures Rebalances(c, Stake(c, now, index, validator, amount, newKey, rent))
    ensures KeepsMoves(c, Stake(c, now, index, validator, amount, newKey, rent))
  {
    var r := Stake(c, now, index, validator, amount, newKey, rent);
    if r.Ok? {
      AddKeepsBooks(c, StakeRecord(newKey, amount, now.epoch, 0), index,
                    validator.(activeBalance := validator.activeBalance + amount, lastDeltaEpoch := now.epoch),
                    r.value);
    }
  }

  lemma StakeByPlanKeepsBooks(c: Chain, now: Clock, index: nat, validator: ValidatorRecord, delta: nat, newKey: Key,
                              rent: nat)
    requires Books(c) && index < |c.validatorSystem.list| && c.validatorSystem.list[index] == validator
    ensures Rebalances(c, StakeByPlan(c, now, index, validator, delta, newKey, rent))
    ensures KeepsMoves(c, StakeByPlan(c, now, index, validator, delta, newKey, rent))
  {
    var plan := ReservePlan(c, validator, delta);
    if plan.Ok? && plan.value.Part? {
      StakeKeepsBooks(c, now, index, validator, plan.value.amount, newKey, rent);
    }
  }

  lemma StakeReserveIsSound(c: Chain, now: Clock, index: nat, vote: Key, newKey: Key, rent: nat)
    requires Books(c)
    ensures Rebalances(c, StakeReserve(c, now, index, vote, newKey, rent))
    ensures KeepsMoves(c, StakeReserve(c, now, index, vote, newKey, rent))
  {
    var delta := StakeDelta(c);
    var found := GetValidator(c.validatorSystem, index, vote);
    if 0 < delta && found.Ok? {
      if found.value.lastDeltaEpoch != now.epoch {
        StakeByPlanKeepsBooks(c, now, index, found.value, delta, newKey, rent);
      } else if c.stakeSystem.extraRuns > 0 {
        StakeByPlanKeepsBooks(UseExtraRun(c), now, index, found.value, delta, newKey, rent);
      }
    }
  }

  // ---------- deactivate_stake ----------

  lemma DeactivateWholeKeepsBooks(c: Chain, now: Clock, stakeIndex: nat, stake: StakeRecord, index: nat,
                                  validator: ValidatorRecord)
    requires Books(c) && Found(c, stakeIndex, stake, index, validator) && stake.emergency == 0
    ensures Rebalances(c, DeactivateWhole(c, now, stakeIndex, stake, index, validator))
    ensures KeepsMoves(c, DeactivateWhole(c, now, stakeIndex, stake, index, validator))
  {
    var r := DeactivateWhole(c, now, stakeIndex, stake, index, validator);
    if !c.stakes[stake.account].deactivating {
      FoundCovered(c, stakeIndex, stake, index, validator);
      if r.Ok? {
        CoolKeepsBooks(c, stakeIndex, stake, index,
                       validator.(activeBalance := validator.activeBalance - stake.lamports), r.value);
      }
    }
  }

  /** After splitting part of an account off and starting to deactivate it, all others are as they were. */
  lemma StoppedSplitAccounts(stakes: map<Key, StakeAccount>, key: Key, amount: nat, splitKey: Key, rent: nat)
    requires var split := SplitStake(stakes, key, amount, splitKey, rent);
             split.Ok? && StartDeactivation(split.value, splitKey).Ok?
    ensures var after := StartDeactivation(SplitStake(stakes, key, amount, splitKey, rent).value, splitKey).value;
            && splitKey !in stakes && after.Keys == stakes.Keys + {splitKey} && after[splitKey].deactivating
            && forall k :: k in stakes ==>
                 after[k].voter == stakes[k].voter && after[k].deactivating == stakes[k].deactivating
  {
  }

  /** Part of an account that is deactivating already cannot be deactivated again. */
  lemma StoppedOnlyIfRunning(stakes: map<Key, StakeAccount>, key: Key, amount: nat, splitKey: Key, rent: nat)
    ensures SplitStake(stakes, key, amount, splitKey, rent) in {Err(CallRefused)} ||
            (SplitStake(stakes, key, amount, splitKey, rent).Ok? &&
             var after := StartDeactivation(SplitStake(stakes, key, amount, splitKey, rent).value, splitKey);
             (after.Ok? && !stakes[key].deactivating) || after == Err(CallRefused))
  {
  }

  lemma DeactivatePartEffect(c: Chain, now: Clock, stakeIndex: nat, stake: StakeRecord, index: nat,
                             validator: ValidatorRecord, amount: nat, splitKey: Key, rent: nat)
    requires Found(c, stakeIndex, stake, index, validator) && amount <= stake.lamports
    requires !c.stakes[stake.account].deactivating ==>
               stake.lamports <= validator.activeBalance <= c.validatorSystem.totalActive
    ensures var r := DeactivatePart(c, now, stakeIndex, stake, index, validator, amount, splitKey, rent);
            && r !in {Err(BalanceUnderflow), Err(AssertFailed)}
            && (r.Ok? ==>
                  var rest := stake.(lamports := stake.lamports - amount);
                  var left := validator.(activeBalance := validator.activeBalance - amount,
                                         lastDeltaEpoch := now.epoch);
                  var cooling := c.stakeSystem.delayedCooling + amount;
                  && !c.stakes[stake.account].deactivating && cooling < U64_LIMIT
                  && r.value == c.(
                       stakeSystem := c.stakeSystem.(
                         list := c.stakeSystem.list[stakeIndex := rest] + [StakeRecord(splitKey, amount, now.epoch, 0)],
                         lastDeltaEpoch := now.epoch, delayedCooling := cooling),
                       validatorSystem := c.validatorSystem.(
                         list := c.validatorSystem.list[index := left],
                         totalActive := c.validatorSystem.totalActive - amount),
                       stakes := r.value.stakes)
                  && var split := SplitStake(c.stakes, stake.account, amount, splitKey, rent);
                     split.Ok? && StartDeactivation(split.value, splitKey) == Ok(r.value.stakes))
  {
    hide StartDeactivation;
    var r := DeactivatePart(c, now, stakeIndex, stake, index, validator, amount, splitKey, rent);
    StoppedOnlyIfRunning(c.stakes, stake.account, amount, splitKey, rent);
    if r.Ok? {
      assert (c.stakeSystem.list + [StakeRecord(splitKey, amount, now.epoch, 0)])
               [stakeIndex := stake.(lamports := stake.lamports - amount)]
          == c.stakeSystem.list[stakeIndex := stake.(lamports := stake.lamports - amount)]
             + [StakeRecord(splitKey, amount, now.epoch, 0)];
    }
  }

  lemma DeactivatePartKeepsBooks(c: Chain, now: Clock, stakeIndex: nat, stake: StakeRecord, index: nat,
                                 validator: ValidatorRecord, amount: nat, splitKey: Key, rent: nat)
    requires Books(c) && Found(c, stakeIndex, stake, index, validator) && amount <= stake.lamports
    ensures Rebalances(c, DeactivatePart(c, now, stakeIndex, stake, index, validator, amount, splitKey, rent))
    ensures KeepsMoves(c, DeactivatePart(c, now, stakeIndex, stake, index, validator, amount, splitKey, rent))
  {
    hide Agree, ValidatorTotals, DeactivatePart, SplitStake, StartDeactivation;
    var r := DeactivatePart(c, now, stakeIndex, stake, index, validator, amount, splitKey, rent);
    if !c.stakes[stake.account].deactivating {
      FoundCovered(c, stakeIndex, stake, index, validator);
    }
    DeactivatePartEffect(c, now, stakeIndex, stake, index, validator, amount, splitKey, rent);
    if r.Ok? {
      StoppedSplitAccounts(c.stakes, stake.account, amount, splitKey, rent);
      SplitKeepsBooks(c, stakeIndex, stake.(lamports := stake.lamports - amount),
                      StakeRecord(splitKey, amount, now.epoch, 0), index,
                      validator.(activeBalance := validator.activeBalance - amount, lastDeltaEpoch := now.epoch),
                      r.value);
    }
  }

  /** The assertion before a split never fails: the account keeps its target, and what is split off is
      positive and at most the unstake delta. */
  lemma DeactivatePlanBounds(c: Chain, now: Clock, stake: StakeRecord, validator: ValidatorRecord, unstakeDelta: nat)
    requires c.stakeSystem.minStake > 0 && unstakeDelta > 0
    ensures var plan := DeactivatePlan(c, now, stake, validator, unstakeDelta);
            && plan != Err(AssertFailed) && plan != Err(BalanceUnderflow)
            && (plan.Ok? && plan.value.Part? ==>
                  0 < plan.value.amount <= stake.lamports && plan.value.amount <= unstakeDelta)
  {
  }

  lemma DeactivateStakeIsSound(c: Chain, now: Clock, stakeIndex: nat, index: nat, key: Key, splitKey: Key, rent: nat)
    requires Books(c) && c.stakeSystem.minStake > 0
    ensures Rebalances(c, Cranks.DeactivateStake(c, now, stakeIndex, index, key, splitKey, rent))
    ensures KeepsMoves(c, Cranks.DeactivateStake(c, now, stakeIndex, index, key, splitKey, rent))
  {
    var found := GetStake(c.stakeSystem, stakeIndex, key);
    var listed := Get(c.validatorSystem.list, index);
    var delta := -StakeDelta(c);
    if found.Ok? && listed.Ok? && 0 < delta && CheckStake(c.stakes, key, found.value.lamports, listed.value.vote).Pass?
       && found.value.emergency == 0 {
      var stake, validator := found.value, listed.value;
      DeactivatePlanBounds(c, now, stake, validator, delta);
      var plan := DeactivatePlan(c, now, stake, validator, delta);
      if plan.Ok? && plan.value.Whole? {
        DeactivateWholeKeepsBooks(c, now, stakeIndex, stake, index, validator);
      } else if plan.Ok? && plan.value.Part? {
        DeactivatePartKeepsBooks(c, now, stakeIndex, stake, index, validator, plan.value.amount, splitKey, rent);
      }
    }
  }

  // ---------- emergency_unstake and partial_unstake ----------

  lemma EmergencyUnstakeIsSound(c: Chain, now: Clock, stakeIndex: nat, index: nat, key: Key)
    requires Books(c)
    ensures Rebalances(c, EmergencyUnstake(c, now, stakeIndex, index, key))
  {
    hide Agree, ValidatorTotals, FeeApply;
    var found := GetStake(c.stakeSystem, stakeIndex, key);
    var listed := Get(c.validatorSystem.list, index);
    if found.Ok? && listed.Ok? && CheckStake(c.stakes, key, found.value.lamports, listed.value.vote).Pass?
       && !c.stakes[key].deactivating {
      var stake, validator := found.value, listed.value;
      FoundCovered(c, stakeIndex, stake, index, validator);
      var r := EmergencyUnstake(c, now, stakeIndex, index, key);
      if r.Ok? {
        CoolKeepsBooks(c, stakeIndex, stake.(emergency := 1), index,
                       validator.(activeBalance := validator.activeBalance - stake.lamports), r.value);
      }
    }
  }

  lemma PartialWholeKeepsBooks(c: Chain, now: Clock, stakeIndex: nat, stake: StakeRecord, index: nat,
                               validator: ValidatorRecord)
    requires Books(c) && Found(c, stakeIndex, stake, index, validator)
    ensures Rebalances(c, PartialWhole(c, now, stakeIndex, stake, index, validator))
  {
    var r := PartialWhole(c, now, stakeIndex, stake, index, validator);
    if !c.stakes[stake.account].deactivating {
      FoundCovered(c, stakeIndex, stake, index, validator);
      if r.Ok? {
        CoolKeepsBooks(c, stakeIndex, stake.(emergency := 1), index,
                       validator.(activeBalance := validator.activeBalance - stake.lamports), r.value);
      }
    }
  }

  lemma PartialPartEffect(c: Chain, now: Clock, stakeIndex: nat, stake: StakeRecord, index: nat,
                          validator: ValidatorRecord, amount: nat, splitKey: Key, rent: nat)
    requires Found(c, stakeIndex, stake, index, validator) && amount <= stake.lamports
    requires !c.stakes[stake.account].deactivating ==>
               stake.lamports <= validator.activeBalance <= c.validatorSystem.totalActive
    ensures var r := PartialPart(c, now, stakeIndex, stake, index, validator, amount, splitKey, rent);
            && r !in {Err(BalanceUnderflow), Err(AssertFailed)}
            && (r.Ok? ==>
                  var rest := stake.(lamports := stake.lamports - amount);
                  var left := validator.(activeBalance := validator.activeBalance - amount);
                  var cooling := c.emergencyCooling + amount;
                  && !c.stakes[stake.account].deactivating && cooling < U64_LIMIT
                  && r.value == c.(
                       stakeSystem := c.stakeSystem.(
                         list := c.stakeSystem.list[stakeIndex := rest]
                                 + [StakeRecord(splitKey, amount, now.epoch, 1)]),
                       validatorSystem := c.validatorSystem.(
                         list := c.validatorSystem.list[index := left],
                         totalActive := c.validatorSystem.totalActive - amount),
                       emergencyCooling := cooling, stakes := r.value.stakes,
                       lastMoveEpoch := r.value.lastMoveEpoch, stakeMoved := r.value.stakeMoved)
                  && var split := SplitStake(c.stakes, stake.account, amount, splitKey, rent);
                     split.Ok? && StartDeactivation(split.value, splitKey) == Ok(r.value.stakes))
  {
    hide StartDeactivation, FeeApply;
    var r := PartialPart(c, now, stakeIndex, stake, index, validator, amount, splitKey, rent);
    StoppedOnlyIfRunning(c.stakes, stake.account, amount, splitKey, rent);
    if r.Ok? {
      assert (c.stakeSystem.list + [StakeRecord(splitKey, amount, now.epoch, 1)])
               [stakeIndex := stake.(lamports := stake.lamports - amount)]
          == c.stakeSystem.list[stakeIndex := stake.(lamports := stake.lamports - amount)]
             + [StakeRecord(splitKey, amount, now.epoch, 1)];
    }
  }

  lemma PartialPartKeepsBooks(c: Chain, now: Clock, stakeIndex: nat, stake: StakeRecord, index: nat,
                              validator: ValidatorRecord, amount: nat, splitKey: Key, rent: nat)
    requires Books(c) && Found(c, stakeIndex, stake, index, validator) && amount <= stake.lamports
    ensures Rebalances(c, PartialPart(c, now, stakeIndex, stake, index, validator, amount, splitKey, rent))
  {
    hide Agree, ValidatorTotals, PartialPart, SplitStake, StartDeactivation;
    var r := PartialPart(c, now, stakeIndex, stake, index, validator, amount, splitKey, rent);
    if !c.stakes[stake.account].deactivating {
      FoundCovered(c, stakeIndex, stake, index, validator);
    }
    PartialPartEffect(c, now, stakeIndex, stake, index, validator, amount, splitKey, rent);
    if r.Ok? {
      StoppedSplitAccounts(c.stakes, stake.account, amount, splitKey, rent);
      SplitKeepsBooks(c, stakeIndex, stake.(lamports := stake.lamports - amount),
                      StakeRecord(splitKey, amount, now.epoch, 1), index,
                      validator.(activeBalance := validator.activeBalance - amount), r.value);
    }
  }

  lemma PartialUnstakeIsSound(c: Chain, now: Clock, stakeIndex: nat, index: nat, desired: nat, key: Key, splitKey: Key,
                              rent: nat)
    requires Books(c) && c.stakeSystem.minStake > 0
    ensures Rebalances(c, PartialUnstake(c, now, stakeIndex, index, desired, key, splitKey, rent))
  {
    var found := GetStake(c.stakeSystem, stakeIndex, key);
    var listed := Get(c.validatorSystem.list, index);
    if found.Ok? && listed.Ok? && CheckStake(c.stakes, key, found.value.lamports, listed.value.vote).Pass? {
      var stake, validator := found.value, listed.value;
      var plan := PartialPlan(c, stake, validator, desired);
      if plan.Ok? && plan.value.Whole? {
        PartialWholeKeepsBooks(c, now, stakeIndex, stake, index, validator);
      } else if plan.Ok? && plan.value.Part? {
        PartialPartKeepsBooks(c, now, stakeIndex, stake, index, validator, plan.value.amount, splitKey, rent);
      }
    }
  }

  // ---------- redelegate ----------

  lemma RedelegateWholeKeepsBooks(c: Chain, now: Clock, stakeIndex: nat, stake: StakeRecord, sourceIndex: nat,
                                  source: ValidatorRecord,
                                destIndex: nat, dest: ValidatorRecord, newKey: Key, rent: nat)
    requires Books(c) && Found(c, stakeIndex, stake, sourceIndex, source)
    requires destIndex < |c.validatorSystem.list| && c.validatorSystem.list[destIndex] == dest
             && sourceIndex != destIndex
    ensures Rebalances(c, RedelegateWhole(c, now, stakeIndex, stake, sourceIndex, source, destIndex, dest, newKey,
                                          rent))
  {
    hide Agree, ValidatorTotals;
    var r := RedelegateWhole(c, now, stakeIndex, stake, sourceIndex, source, destIndex, dest, newKey, rent);
    if !c.stakes[stake.account].deactivating {
      FoundCovered(c, stakeIndex, stake, sourceIndex, source);
      if r.Ok? {
        var rest := stake.(emergency := 0, lamports := 0);
        var moved := StakeRecord(newKey, stake.lamports, now.epoch, 0);
        assert r.value.stakeSystem.list == c.stakeSystem.list[stakeIndex := rest] + [] + [moved];
        MoveKeepsBooks(c, stakeIndex, rest, [], moved,
                       sourceIndex, source.(activeBalance := source.activeBalance - stake.lamports),
                       destIndex, dest.(activeBalance := dest.activeBalance + stake.lamports), r.value);
      }
    }
  }

  /** After splitting part of an account off and moving it to a new one, all others are as they were. */
  lemma MovedSplitAccounts(stakes: map<Key, StakeAccount>, key: Key, amount: nat, splitKey: Key, vote: Key, newKey: Key,
                           rent: nat)
    requires var split := SplitStake(stakes, key, amount, splitKey, rent);
             split.Ok? && RedelegateStake(split.value, splitKey, vote, newKey, rent).Ok?
    ensures var split := SplitStake(stakes, key, amount, splitKey, rent).value;
            var after := RedelegateStake(split, splitKey, vote, newKey, rent).value;
            && splitKey !in stakes && newKey !in stakes && splitKey != newKey
            && after.Keys == stakes.Keys + {splitKey, newKey}
            && after[newKey].voter == vote && !after[newKey].deactivating
            && forall k :: k in stakes ==>
                 after[k].voter == stakes[k].voter && after[k].deactivating == stakes[k].deactivating
  {
  }

  /** Part of an account that is deactivating cannot be moved. */
  lemma MovedOnlyIfRunning(stakes: map<Key, StakeAccount>, key: Key, amount: nat, splitKey: Key, vote: Key, newKey: Key,
                           rent: nat)
    ensures SplitStake(stakes, key, amount, splitKey, rent) == Err(CallRefused) ||
            (SplitStake(stakes, key, amount, splitKey, rent).Ok? &&
             var split := SplitStake(stakes, key, amount, splitKey, rent).value;
             var after := RedelegateStake(split, splitKey, vote, newKey, rent);
             (after.Ok? && !stakes[key].deactivating) || after == Err(CallRefused))
  {
  }

  lemma RedelegatePartEffect(c: Chain, now: Clock, stakeIndex: nat, stake: StakeRecord, sourceIndex: nat,
                             source: ValidatorRecord, destIndex: nat, dest: ValidatorRecord, amount: nat, splitKey: Key,
                             newKey: Key, rent: nat)
    requires Found(c, stakeIndex, stake, sourceIndex, source) && amount <= stake.lamports
    requires destIndex < |c.validatorSystem.list| && sourceIndex != destIndex
    requires !c.stakes[stake.account].deactivating ==> stake.lamports <= source.activeBalance
    ensures var r := RedelegatePart(c, now, stakeIndex, stake, sourceIndex, source, destIndex, dest, amount, splitKey,
                                    newKey, rent);
            && r !in {Err(BalanceUnderflow), Err(AssertFailed)}
            && (r.Ok? ==>
                  var rest := stake.(lamports := stake.lamports - amount);
                  var empty, moved := StakeRecord(splitKey, 0, now.epoch, 0), StakeRecord(newKey, amount, now.epoch, 0);
                  var left := source.(activeBalance := source.activeBalance - amount);
                  var grown := dest.(activeBalance := dest.activeBalance + amount);
                  && !c.stakes[stake.account].deactivating
                  && r.value == c.(
                       stakeSystem := c.stakeSystem.(
                         list := c.stakeSystem.list[stakeIndex := rest] + [empty] + [moved]),
                       validatorSystem := c.validatorSystem.(
                         list := c.validatorSystem.list[sourceIndex := left][destIndex := grown]),
                       stakes := r.value.stakes,
                       lastMoveEpoch := r.value.lastMoveEpoch, stakeMoved := r.value.stakeMoved)
                  && var split := SplitStake(c.stakes, stake.account, amount, splitKey, rent);
                     split.Ok? && RedelegateStake(split.value, splitKey, dest.vote, newKey, rent) == Ok(r.value.stakes))
  {
    hide SplitStake, RedelegateStake, FeeApply;
    var r := RedelegatePart(c, now, stakeIndex, stake, sourceIndex, source, destIndex, dest, amount, splitKey, newKey,
                            rent);
    MovedOnlyIfRunning(c.stakes, stake.account, amount, splitKey, dest.vote, newKey, rent);
    if r.Ok? {
      var list, rest := c.stakeSystem.list, stake.(lamports := stake.lamports - amount);
      var empty, moved := StakeRecord(splitKey, 0, now.epoch, 0), StakeRecord(newKey, amount, now.epoch, 0);
      assert (list + [empty] + [moved])[stakeIndex := rest] == list[stakeIndex := rest] + [empty] + [moved];
    }
  }

  lemma RedelegatePartKeepsBooks(c: Chain, now: Clock, stakeIndex: nat, stake: StakeRecord, sourceIndex: nat,
                                 source: ValidatorRecord, destIndex: nat, dest: ValidatorRecord, amount: nat,
                                 splitKey: Key, newKey: Key, rent: nat)
    requires Books(c) && Found(c, stakeIndex, stake, sourceIndex, source)
    requires destIndex < |c.validatorSystem.list| && c.validatorSystem.list[destIndex] == dest
             && sourceIndex != destIndex
    requires amount <= stake.lamports
    ensures Rebalances(c, RedelegatePart(c, now, stakeIndex, stake, sourceIndex, source, destIndex, dest, amount,
                                         splitKey, newKey, rent))
  {
    hide Agree, ValidatorTotals, RedelegatePart, SplitStake, RedelegateStake;
    var r := RedelegatePart(c, now, stakeIndex, stake, sourceIndex, source, destIndex, dest, amount, splitKey, newKey,
                            rent);
    if !c.stakes[stake.account].deactivating {
      FoundCovered(c, stakeIndex, stake, sourceIndex, source);
    }
    RedelegatePartEffect(c, now, stakeIndex, stake, sourceIndex, source, destIndex, dest, amount, splitKey, newKey,
                         rent);
    if r.Ok? {
      MovedSplitAccounts(c.stakes, stake.account, amount, splitKey, dest.vote, newKey, rent);
      MoveKeepsBooks(c, stakeIndex, stake.(lamports := stake.lamports - amount),
                     [StakeRecord(splitKey, 0, now.epoch, 0)], StakeRecord(newKey, amount, now.epoch, 0),
                     sourceIndex, source.(activeBalance := source.activeBalance - amount),
                     destIndex, dest.(activeBalance := dest.activeBalance + amount), r.value);
    }
  }

  lemma RedelegateIsSound(c: Chain, now: Clock, stakeIndex: nat, sourceIndex: nat, destIndex: nat, key: Key,
                          destVote: Key,
                          splitKey: Key, newKey: Key, rent: nat)
    requires Books(c)
    ensures Rebalances(c, Redelegate(c, now, stakeIndex, sourceIndex, destIndex, key, destVote, splitKey, newKey, rent))
  {
    hide Books, RedelegateWhole, RedelegatePart;
    var found := GetStake(c.stakeSystem, stakeIndex, key);
    var listed := Get(c.validatorSystem.list, sourceIndex);
    var dest := GetValidator(c.validatorSystem, destIndex, destVote);
    if found.Ok? && listed.Ok? && dest.Ok? && sourceIndex != destIndex
       && CheckStake(c.stakes, key, found.value.lamports, listed.value.vote).Pass? {
      var stake, source := found.value, listed.value;
      var plan := RedelegatePlan(c, stake, source, dest);
      if plan.Ok? && plan.value.Whole? {
        RedelegateWholeKeepsBooks(c, now, stakeIndex, stake, sourceIndex, source, destIndex, dest.value, newKey, rent);
      } else if plan.Ok? && plan.value.Part? {
        RedelegatePartKeepsBooks(c, now, stakeIndex, stake, sourceIndex, source, destIndex, dest.value,
                                 plan.value.amount, splitKey, newKey, rent);
      }
    }
  }

  // ---------- merge_stakes ----------

  lemma MergedAccounts(stakes: map<Key, StakeAccount>, destKey: Key, sourceKey: Key, extra: nat, back: nat,
                       after: map<Key, StakeAccount>)
    requires var merged := MergeStake(stakes, destKey, sourceKey, extra);
             merged.Ok? && WithdrawStake(merged.value, destKey, back) == Ok(after)
    ensures after.Keys == stakes.Keys - {sourceKey}
    ensures forall key :: key in after ==>
              after[key].voter == stakes[key].voter && after[key].deactivating == stakes[key].deactivating
  {
  }

  lemma MergeRecordsEffect(c: Chain, destIndex: nat, dest: StakeRecord, sourceIndex: nat, source: StakeRecord,
                           index: nat, validator: ValidatorRecord, extra: nat)
    requires Found(c, destIndex, dest, index, validator) && Found(c, sourceIndex, source, index, validator)
    ensures var r := MergeRecords(c, destIndex, dest, sourceIndex, source, index, validator, extra);
            r !in {Err(BalanceUnderflow), Err(AssertFailed)}
    ensures var r := MergeRecords(c, destIndex, dest, sourceIndex, source, index, validator, extra);
            r.Ok? ==>
            var c' := r.value;
            var grown := dest.(lamports := dest.lamports + source.lamports + extra);
            && dest.account != source.account && extra <= c.stakes[source.account].rent
            && c'.stakeSystem
               == c.stakeSystem.(list := SwapRemove(c.stakeSystem.list[destIndex := grown], sourceIndex))
            && c'.validatorSystem == c.validatorSystem.(
                 list := c.validatorSystem.list[index := validator.(activeBalance := validator.activeBalance + extra)],
                 totalActive := c.validatorSystem.totalActive + extra)
            && c'.validatorSystem.totalActive < U64_LIMIT
            && c' == c.(stakeSystem := c'.stakeSystem, validatorSystem := c'.validatorSystem, stakes := c'.stakes)
            && var merged := MergeStake(c.stakes, dest.account, source.account, extra);
               merged.Ok? && WithdrawStake(merged.value, dest.account, c.stakes[source.account].rent - extra)
                 == Ok(c'.stakes)
  {
  }

  lemma MergeRecordsKeepsBooks(c: Chain, destIndex: nat, dest: StakeRecord, sourceIndex: nat, source: StakeRecord,
                               index: nat, validator: ValidatorRecord, extra: nat)
    requires Books(c) && Found(c, destIndex, dest, index, validator) && Found(c, sourceIndex, source, index, validator)
    requires !c.stakes[dest.account].deactivating && !c.stakes[source.account].deactivating
    ensures var r := MergeRecords(c, destIndex, dest, sourceIndex, source, index, validator, extra);
            Sound(r) && (r.Ok? ==> SameFunds(c, r.value) && Control(r.value) == Control(c) + extra) && KeepsMoves(c, r)
  {
    hide Agree, ValidatorTotals, MergeRecords, MergeStake;
    var r := MergeRecords(c, destIndex, dest, sourceIndex, source, index, validator, extra);
    MergeRecordsEffect(c, destIndex, dest, sourceIndex, source, index, validator, extra);
    if r.Ok? {
      var merged := dest.(lamports := dest.lamports + source.lamports + extra);
      MergedAccounts(c.stakes, dest.account, source.account, extra, c.stakes[source.account].rent - extra,
                     r.value.stakes);
      MergeKeepsBooks(c, destIndex, merged, sourceIndex, index,
                      validator.(activeBalance := validator.activeBalance + extra), extra, r.value);
    }
  }

  lemma MergeStakesIsSound(c: Chain, destIndex: nat, sourceIndex: nat, index: nat, destKey: Key, sourceKey: Key,
                           extra: nat)
    requires Books(c)
    ensures var r := MergeStakes(c, destIndex, sourceIndex, index, destKey, sourceKey, extra);
            Sound(r) && (r.Ok? ==> SameFunds(c, r.value) && Control(r.value) == Control(c) + extra) && KeepsMoves(c, r)
  {
    var dest, source := GetStake(c.stakeSystem, destIndex, destKey), GetStake(c.stakeSystem, sourceIndex, sourceKey);
    var listed := Get(c.validatorSystem.list, index);
    if dest.Ok? && source.Ok? && listed.Ok? && CheckMergeable(c.stakes, dest.value, listed.value.vote).Pass?
       && CheckMergeable(c.stakes, source.value, listed.value.vote).Pass? {
      MergeRecordsKeepsBooks(c, destIndex, dest.value, sourceIndex, source.value, index, listed.value, extra);
    }
  }
}
