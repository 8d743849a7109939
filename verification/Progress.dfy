/** While stake is to be unstaked and there is any, some call of deactivate_stake makes progress. */
module Progress {
  import opened Results
  import opened Calc
  import opened Sums
  import opened Records
  import opened State
  import opened Ledger
  import Cranks
  import opened Scheduler
  import opened CrankLimits

  /** Validators with active stake have an active record that holds some of it. */
  lemma SomeActiveRecord(c: Chain, index: nat)
    requires Books(c) && index < |c.validatorSystem.list| && 0 < c.validatorSystem.list[index].activeBalance
    ensures exists i :: 0 <= i < |c.stakeSystem.list| && OnValidator(c, i, index)
  {
    var vote := c.validatorSystem.list[index].vote;
    VoteBalance(c.validatorSystem.list, index);
    AgreeAt(c, Active(vote));
    if forall i :: 0 <= i < |c.stakeSystem.list| ==> InBucket(c.stakes, Active(vote))(c.stakeSystem.list[i]) == 0 {
      SumZero(c.stakeSystem.list, InBucket(c.stakes, Active(vote)));
    } else {
      var i :| 0 <= i < |c.stakeSystem.list| && InBucket(c.stakes, Active(vote))(c.stakeSystem.list[i]) != 0;
      assert OnValidator(c, i, index);
    }
  }

  /** The record is active on the validator and holds lamports. */
  ghost predicate OnValidator(c: Chain, i: nat, index: nat)
    requires i < |c.stakeSystem.list| && index < |c.validatorSystem.list|
  {
    && BucketOf(c.stakes, c.stakeSystem.list[i]) == Active(c.validatorSystem.list[index].vote)
    && 0 < c.stakeSystem.list[i].lamports
  }

  /** Every active record is up to date with its account. */
  ghost predicate UpToDate(c: Chain) {
    forall i :: 0 <= i < |c.stakeSystem.list| && BucketOf(c.stakes, c.stakeSystem.list[i]).Active? ==>
      var account := c.stakes[c.stakeSystem.list[i].account];
      account.stake == c.stakeSystem.list[i].lamports <= account.lamports
  }

  /** What a crank needs to split an account of any validator: no split there yet this epoch, and room. */
  ghost predicate RoomToSplit(c: Chain, now: Clock, splitKey: Key) {
    && !c.paused && splitKey !in c.stakes && |c.stakeSystem.list| < c.stakeSystem.capacity
    && forall j :: 0 <= j < |c.validatorSystem.list| ==> c.validatorSystem.list[j].lastDeltaEpoch != now.epoch
  }

  /** The numbers a crank computes with fit u64. */
  ghost predicate Computes(c: Chain) {
    -StakeDelta(c) < U64_LIMIT && 2 * c.stakeSystem.minStake < U64_LIMIT && Control(c) < U64_LIMIT
  }

  lemma OverTargetPlans(c: Chain, now: Clock, stake: StakeRecord, validator: ValidatorRecord)
    requires StakeDelta(c) < 0 && Computes(c) && validator.lastDeltaEpoch != now.epoch
    requires 0 < c.stakeSystem.minStake && 0 < stake.lamports
    requires UnstakeTarget(c, validator).Ok? && UnstakeTarget(c, validator).value < validator.activeBalance
    ensures var plan := Cranks.DeactivatePlan(c, now, stake, validator, -StakeDelta(c));
            plan.Ok? && match plan.value
                        case Skip => false
                        case Whole(amount) => amount == stake.lamports
                        case Part(amount) => 0 < amount <= stake.lamports
  {
  }

  /** More stake is cooling down after the call than before. */
  ghost predicate MoreCools(c: Chain, r: Result<Chain>) {
    r.Ok? && c.stakeSystem.delayedCooling < r.value.stakeSystem.delayedCooling
  }

  lemma WholeCools(c: Chain, now: Clock, i: nat, index: nat)
    requires Books(c) && UpToDate(c) && Computes(c)
    requires i < |c.stakeSystem.list| && index < |c.validatorSystem.list| && OnValidator(c, i, index)
    ensures MoreCools(c, Cranks.DeactivateWhole(c, now, i, c.stakeSystem.list[i], index, c.validatorSystem.list[index]))
  {
    ActiveCovered(c, i, index);
  }

  lemma PartCools(c: Chain, now: Clock, i: nat, index: nat, amount: nat, splitKey: Key, rent: nat)
    requires Books(c) && UpToDate(c) && Computes(c) && RoomToSplit(c, now, splitKey)
    requires i < |c.stakeSystem.list| && index < |c.validatorSystem.list| && OnValidator(c, i, index)
    requires 0 < amount <= c.stakeSystem.list[i].lamports
    ensures MoreCools(c, Cranks.DeactivatePart(c, now, i, c.stakeSystem.list[i], index, c.validatorSystem.list[index],
                                               amount, splitKey, rent))
  {
    ActiveCovered(c, i, index);
  }

  /** The checks of a call for an active, updated record pass, and it does what is planned. */
  lemma CallFollowsPlan(c: Chain, now: Clock, i: nat, index: nat, splitKey: Key, rent: nat)
    requires Books(c) && StakeDelta(c) < 0 && UpToDate(c) && RoomToSplit(c, now, splitKey) && Computes(c)
    requires i < |c.stakeSystem.list| && index < |c.validatorSystem.list| && OnValidator(c, i, index)
    ensures var stake, validator := c.stakeSystem.list[i], c.validatorSystem.list[index];
            var r := Cranks.DeactivateStake(c, now, i, index, stake.account, splitKey, rent);
            match Cranks.DeactivatePlan(c, now, stake, validator, -StakeDelta(c))
            case Err(error) => r == Err(error)
            case Ok(Skip) => r == Ok(c)
            case Ok(Whole(_)) => r == Cranks.DeactivateWhole(c, now, i, stake, index, validator)
            case Ok(Part(amount)) =>
              r == Cranks.DeactivatePart(c, now, i, stake, index, validator, amount, splitKey, rent)
  {
    hide StakeDelta, Cranks.DeactivatePlan, Cranks.DeactivateWhole, Cranks.DeactivatePart;
    assert c.stakeSystem.list[i].emergency == 0;
  }

  /** A record with lamports on a validator over its target: the call for it makes something cool down. */
  lemma CallCools(c: Chain, now: Clock, i: nat, index: nat, splitKey: Key, rent: nat)
    requires Inv(c) && StakeDelta(c) < 0 && UpToDate(c) && RoomToSplit(c, now, splitKey) && Computes(c)
    requires i < |c.stakeSystem.list| && index < |c.validatorSystem.list| && OnValidator(c, i, index)
    requires var validator := c.validatorSystem.list[index];
             UnstakeTarget(c, validator).Ok? && UnstakeTarget(c, validator).value < validator.activeBalance
    ensures MoreCools(c, Cranks.DeactivateStake(c, now, i, index, c.stakeSystem.list[i].account, splitKey, rent))
  {
    hide Books, UnstakeTarget, StakeDelta, Cranks.DeactivatePlan, Cranks.DeactivateStake, Cranks.DeactivateWhole,
      Cranks.DeactivatePart, MoreCools;
    var stake, validator := c.stakeSystem.list[i], c.validatorSystem.list[index];
    OverTargetPlans(c, now, stake, validator);
    CallFollowsPlan(c, now, i, index, splitKey, rent);
    match Cranks.DeactivatePlan(c, now, stake, validator, -StakeDelta(c)).value
    case Whole(_) => WholeCools(c, now, i, index);
    case Part(amount) => PartCools(c, now, i, index, amount, splitKey, rent);
  }

  /** While stake is to be unstaked and there is any, records are up to date, and there is room to split,
      some call of deactivate_stake succeeds and makes more stake cool down. */
  lemma SomeUnstakeCools(c: Chain, now: Clock, splitKey: Key, rent: nat)
    requires Inv(c) && StakeDelta(c) < 0 < c.validatorSystem.totalActive
    requires UpToDate(c) && RoomToSplit(c, now, splitKey) && Computes(c)
    ensures exists i: nat, index: nat :: i < |c.stakeSystem.list| && index < |c.validatorSystem.list| &&
              MoreCools(c, Cranks.DeactivateStake(c, now, i, index, c.stakeSystem.list[i].account, splitKey, rent))
  {
    SomeValidatorGivesStake(c);
    var index: nat :| index < |c.validatorSystem.list| &&
      var validator := c.validatorSystem.list[index];
      UnstakeTarget(c, validator).Ok? && UnstakeTarget(c, validator).value < validator.activeBalance;
    var target: nat := UnstakeTarget(c, c.validatorSystem.list[index]).value;
    SomeActiveRecord(c, index);
    var i: nat :| i < |c.stakeSystem.list| && OnValidator(c, i, index);
    CallCools(c, now, i, index, splitKey, rent);
  }
}
