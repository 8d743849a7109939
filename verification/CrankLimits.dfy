/** The limits staking the reserve and unstaking keep, and how often they can follow one another. */
module CrankLimits {
  import opened Results
  import opened Calc
  import opened Records
  import opened State
  import opened Ledger
  import opened Machine
  import opened Invariants
  import Cranks

  // ---------- stake_reserve ----------

  /** The amount chosen for a validator: at least the minimum stake, at most the delta, leaving nothing
      or at least a minimum stake of delta, and taking the validator less than a minimum stake over. */
  lemma ReservePlanBounds(c: Chain, validator: ValidatorRecord, delta: nat)
    requires Cranks.ReservePlan(c, validator, delta).Ok? && Cranks.ReservePlan(c, validator, delta).value.Part?
    ensures var amount, minStake := Cranks.ReservePlan(c, validator, delta).value.amount, c.stakeSystem.minStake;
            var target := StakeTarget(c.validatorSystem, validator,
                                      Min(c.validatorSystem.totalActive + delta, U64_MAX));
            && minStake <= amount <= delta
            && (delta - amount == 0 || delta - amount >= minStake)
            && target.Ok? && validator.activeBalance < target.value
            && (0 < minStake ==> validator.activeBalance + amount < target.value + minStake)
  {
  }

  /** When the plan is to stake nothing, and what else it is: the whole delta, or the whole gap of the
      validator. */
  lemma ReservePlanExactly(c: Chain, validator: ValidatorRecord, delta: nat, target: nat)
    requires 0 < c.stakeSystem.minStake
    requires StakeTarget(c.validatorSystem, validator, Min(c.validatorSystem.totalActive + delta, U64_MAX))
             == Ok(target)
    ensures var plan, minStake := Cranks.ReservePlan(c, validator, delta), c.stakeSystem.minStake;
            var gap := target - validator.activeBalance;
            && plan.Ok? && !plan.value.Whole?
            && (plan.value.Skip? <==> gap <= 0 || delta < minStake || (gap < minStake && minStake <= delta - gap))
            && (plan.value.Part? ==> plan.value.amount == if delta - gap < minStake then delta else gap)
  {
  }

  /** Staking takes exactly the amount off the delta. */
  lemma StakeLowersDelta(c: Chain, now: Clock, index: nat, validator: ValidatorRecord, amount: nat, newKey: Key,
                         rent: nat)
    requires Backed(c) && index < |c.validatorSystem.list| && amount <= StakeDelta(c)
    requires Cranks.Stake(c, now, index, validator, amount, newKey, rent).Ok?
    ensures var c' := Cranks.Stake(c, now, index, validator, amount, newKey, rent).value;
            && StakeDelta(c') == StakeDelta(c) - amount
            && |c'.stakeSystem.list| == |c.stakeSystem.list| + 1
               && c'.stakeSystem.list[|c.stakeSystem.list|].lamports == amount
            && c'.validatorSystem.list[index].activeBalance == validator.activeBalance + amount
            && c'.stakeSystem.minStake == c.stakeSystem.minStake
  {
  }

  /** One record of between the minimum stake and the delta was added; exactly that came off the delta,
      which is now zero or at least the minimum stake; and the validator is below its target plus the
      minimum stake. */
  ghost predicate StakedWithin(c: Chain, index: nat, c': Chain) {
    var before, minStake := c.stakeSystem.list, c.stakeSystem.minStake;
    && StakeDelta(c) > 0
    && |c'.stakeSystem.list| == |before| + 1 && index < |c.validatorSystem.list| == |c'.validatorSystem.list|
    && var amount := c'.stakeSystem.list[|before|].lamports;
       var target := StakeTarget(c.validatorSystem, c.validatorSystem.list[index],
                                 Min(c.validatorSystem.totalActive + StakeDelta(c), U64_MAX));
       && minStake <= amount <= StakeDelta(c)
       && StakeDelta(c') == StakeDelta(c) - amount
       && (StakeDelta(c') == 0 || StakeDelta(c') >= minStake)
       && target.Ok? && c'.validatorSystem.list[index].activeBalance < target.value + minStake
  }

  /** Either that, or neither the records nor the delta changed. */
  ghost predicate ReserveStaked(c: Chain, index: nat, c': Chain) {
    && c'.stakeSystem.minStake == c.stakeSystem.minStake
    && (StakedWithin(c, index, c') || (c'.stakeSystem.list == c.stakeSystem.list && StakeDelta(c') == StakeDelta(c)))
  }

  lemma StakeByPlanLimits(c: Chain, now: Clock, index: nat, validator: ValidatorRecord, newKey: Key, rent: nat)
    requires Backed(c) && c.stakeSystem.minStake > 0 && StakeDelta(c) > 0
    requires index < |c.validatorSystem.list| && c.validatorSystem.list[index] == validator
    requires Cranks.StakeByPlan(c, now, index, validator, StakeDelta(c), newKey, rent).Ok?
    ensures ReserveStaked(c, index, Cranks.StakeByPlan(c, now, index, validator, StakeDelta(c), newKey, rent).value)
  {
    var delta := StakeDelta(c);
    var plan := Cranks.ReservePlan(c, validator, delta);
    if plan.value.Part? {
      ReservePlanBounds(c, validator, delta);
      StakeLowersDelta(c, now, index, validator, plan.value.amount, newKey, rent);
    }
  }

  lemma ExtraRunIsAside(c: Chain, index: nat, c': Chain)
    requires c.stakeSystem.extraRuns > 0 && ReserveStaked(Cranks.UseExtraRun(c), index, c')
    ensures ReserveStaked(c, index, c')
  {
  }

  /** Every successful stake_reserve stakes within these limits, or leaves records and delta as they were:
      no dust is left behind. */
  lemma StakeReserveLimits(c: Chain, now: Clock, index: nat, vote: Key, newKey: Key, rent: nat)
    requires Inv(c) && Cranks.StakeReserve(c, now, index, vote, newKey, rent).Ok?
    ensures ReserveStaked(c, index, Cranks.StakeReserve(c, now, index, vote, newKey, rent).value)
  {
    hide StakedWithin, Cranks.StakeByPlan, Books, TicketTotals;
    if StakeDelta(c) > 0 {
      var validator := c.validatorSystem.list[index];
      if validator.lastDeltaEpoch != now.epoch {
        StakeByPlanLimits(c, now, index, validator, newKey, rent);
      } else if c.stakeSystem.extraRuns > 0 {
        StakeByPlanLimits(Cranks.UseExtraRun(c), now, index, validator, newKey, rent);
        ExtraRunIsAside(c, index, Cranks.StakeReserve(c, now, index, vote, newKey, rent).value);
      }
    }
  }

  /** The validator was staked to this epoch, an extra run is left for it, and there is nothing to stake. */
  ghost predicate SpendsExtraRun(c: Chain, now: Clock, index: nat, vote: Key) {
    && 0 < StakeDelta(c) < U64_LIMIT && GetValidator(c.validatorSystem, index, vote).Ok?
    && var validator := GetValidator(c.validatorSystem, index, vote).value;
       && validator.lastDeltaEpoch == now.epoch && 0 < c.stakeSystem.extraRuns
       && now.slot >= SatSub(now.lastSlot, c.stakeSystem.slots)
       && Cranks.ReservePlan(c, validator, StakeDelta(c)) == Ok(Cranks.Skip)
  }

  lemma StakingAddsRecord(c: Chain, now: Clock, index: nat, validator: ValidatorRecord, delta: nat, newKey: Key,
                          rent: nat)
    requires index < |c.validatorSystem.list|
    ensures var r, plan := Cranks.StakeByPlan(c, now, index, validator, delta, newKey, rent),
              Cranks.ReservePlan(c, validator, delta);
            r.Ok? ==>
              && plan.Ok? && !plan.value.Whole?
              && (if plan.value.Skip? then r.value == c
                  else |r.value.stakeSystem.list| == |c.stakeSystem.list| + 1)
  {
  }

  /** A success that stakes nothing leaves everything as it was or spends an extra run, and exactly when it
      does the one and the other. */
  lemma ExtraRunSpentExactly(c: Chain, now: Clock, index: nat, vote: Key, newKey: Key, rent: nat)
    requires Cranks.StakeReserve(c, now, index, vote, newKey, rent).Ok?
    ensures var c' := Cranks.StakeReserve(c, now, index, vote, newKey, rent).value;
            var staked := |c'.stakeSystem.list| != |c.stakeSystem.list|;
            && (SpendsExtraRun(c, now, index, vote) <==>
                  c.stakeSystem.extraRuns > 0 && c' == Cranks.UseExtraRun(c))
            && (!staked && !SpendsExtraRun(c, now, index, vote) ==> c' == c)
            && (staked ==> |c'.stakeSystem.list| == |c.stakeSystem.list| + 1)
  {
    var delta := StakeDelta(c);
    if delta > 0 {
      var validator := c.validatorSystem.list[index];
      if validator.lastDeltaEpoch != now.epoch {
        StakingAddsRecord(c, now, index, validator, delta, newKey, rent);
      } else if c.stakeSystem.extraRuns > 0 {
        StakingAddsRecord(Cranks.UseExtraRun(c), now, index, validator, delta, newKey, rent);
      }
    }
  }

  ghost predicate OnlyStakeReserve(events: seq<Event>) {
    forall i :: 0 <= i < |events| ==> events[i].action.StakeReserve?
  }

  /** How many records were added, each for at least the minimum stake of the delta. */
  ghost predicate StakedDown(c: Chain, c': Chain) {
    var effective := |c'.stakeSystem.list| - |c.stakeSystem.list|;
    && 0 <= effective && c'.stakeSystem.minStake == c.stakeSystem.minStake
    && (effective == 0 ==> StakeDelta(c') == StakeDelta(c))
    && (effective > 0 ==> StakeDelta(c') >= 0 && effective * c.stakeSystem.minStake + StakeDelta(c') <= StakeDelta(c))
  }

  lemma StakedDownTrans(c: Chain, c1: Chain, c2: Chain)
    requires StakedDown(c, c1) && StakedDown(c1, c2)
    ensures StakedDown(c, c2)
  {
    var n, k, m := |c1.stakeSystem.list| - |c.stakeSystem.list|, |c2.stakeSystem.list| - |c1.stakeSystem.list|,
      c.stakeSystem.minStake;
    assert (n + k) * m == n * m + k * m;
  }

  lemma LimitsStakeDown(c: Chain, index: nat, c': Chain)
    requires ReserveStaked(c, index, c')
    ensures StakedDown(c, c')
  {
  }

  lemma StakeReserveStep(c: Chain, e: Event)
    requires Inv(c) && e.action.StakeReserve?
    ensures StakedDown(c, Exec(c, e))
  {
    var a := e.action;
    assert Step(c, e) == Cranks.StakeReserve(c, e.now, a.index, a.vote, a.newKey, a.rent);
    if Step(c, e).Ok? {
      StakeReserveLimits(c, e.now, a.index, a.vote, a.newKey, a.rent);
      LimitsStakeDown(c, a.index, Step(c, e).value);
    }
  }

  /** Among calls of stake_reserve that follow one another, every effective one uses up at least the
      minimum stake of the delta, so there are at most delta / min_stake of them. */
  lemma {:induction false} StakeReserveStops(c: Chain, events: seq<Event>)
    requires Inv(c) && OnlyStakeReserve(events)
    ensures StakedDown(c, Run(c, events))
  {
    if events != [] {
      var most := events[..|events| - 1];
      StakeReserveStops(c, most);
      RunKeepsInv(c, most);
      StakeReserveStep(Run(c, most), events[|events| - 1]);
      StakedDownTrans(c, Run(c, most), Run(c, events));
    }
  }

  // ---------- deactivate_stake ----------

  /** What deactivate_stake decides to unstake from a record of a validator over its target. */
  lemma DeactivatePlanLimits(c: Chain, now: Clock, stake: StakeRecord, validator: ValidatorRecord, unstakeDelta: nat)
    requires unstakeDelta > 0 && c.stakeSystem.minStake > 0
    requires Cranks.DeactivatePlan(c, now, stake, validator, unstakeDelta).Ok?
    ensures var target := StakeTarget(c.validatorSystem, validator,
                                      SatSub(c.validatorSystem.totalActive, unstakeDelta));
            var minStake := c.stakeSystem.minStake;
            target.Ok? &&
            match Cranks.DeactivatePlan(c, now, stake, validator, unstakeDelta).value
            case Skip => validator.activeBalance <= target.value || validator.lastDeltaEpoch == now.epoch
            case Whole(amount) =>
              && amount == stake.lamports && amount < unstakeDelta + 2 * minStake
              && validator.activeBalance - amount > target.value - 2 * minStake
            case Part(amount) =>
              && 0 < amount <= unstakeDelta && stake.lamports - amount >= 2 * minStake
              && validator.activeBalance - amount >= target.value
  {
  }

  /** And exactly when: nothing at or under target, or when all that is left to do is a split and the
      validator had one this epoch; the whole account when less than twice the minimum stake would stay in
      it; otherwise a split of all the validator is over its target, up to the delta. */
  lemma DeactivatePlanExactly(c: Chain, now: Clock, stake: StakeRecord, validator: ValidatorRecord, unstakeDelta: nat,
                              target: nat)
    requires unstakeDelta > 0 && c.stakeSystem.minStake > 0
    requires StakeTarget(c.validatorSystem, validator, SatSub(c.validatorSystem.totalActive, unstakeDelta))
             == Ok(target)
    requires Cranks.DeactivatePlan(c, now, stake, validator, unstakeDelta).Ok?
    ensures var cap := Min(validator.activeBalance - target, unstakeDelta);
            var splits := cap + 2 * c.stakeSystem.minStake <= stake.lamports;
            match Cranks.DeactivatePlan(c, now, stake, validator, unstakeDelta).value
            case Skip => cap <= 0 || (splits && validator.lastDeltaEpoch == now.epoch)
            case Whole(amount) => 0 < cap && !splits && amount == stake.lamports
            case Part(amount) => 0 < cap == amount && splits && validator.lastDeltaEpoch != now.epoch
  {
  }

  /** A split exceeds twice the minimum stake exactly when both what the validator is over its target and
      what is to be unstaked do. */
  lemma SplitExceedsTwiceExactly(c: Chain, now: Clock, stake: StakeRecord, validator: ValidatorRecord,
                                 unstakeDelta: nat, amount: nat)
    requires unstakeDelta > 0 && c.stakeSystem.minStake > 0
    requires Cranks.DeactivatePlan(c, now, stake, validator, unstakeDelta) == Ok(Cranks.Part(amount))
    ensures var target := StakeTarget(c.validatorSystem, validator,
                                      SatSub(c.validatorSystem.totalActive, unstakeDelta));
            var least := 2 * c.stakeSystem.minStake;
            target.Ok? &&
            (least < amount <==> least < validator.activeBalance - target.value && least < unstakeDelta)
  {
  }

  /** Starting to cool an amount down raises the delta by that amount, unless emergency cooling-down
      stake already covered part of it. */
  lemma CoolingRaisesDelta(c: Chain, amount: nat, c': Chain)
    requires StakeDelta(c) < 0
    requires c'.reserve == c.reserve && c'.config == c.config && c'.ticketBalance == c.ticketBalance
    requires c'.emergencyCooling == c.emergencyCooling
             && c'.stakeSystem.delayedCooling == c.stakeSystem.delayedCooling + amount
    ensures amount <= -StakeDelta(c) ==> StakeDelta(c') == StakeDelta(c) + amount
    ensures 0 < StakeDelta(c') ==> StakeDelta(c') <= StakeDelta(c) + amount
  {
  }

  /** The validator's target out of the total that remains after unstaking the delta. */
  function UnstakeTarget(c: Chain, validator: ValidatorRecord): Result<nat>
    requires StakeDelta(c) < 0
  {
    StakeTarget(c.validatorSystem, validator, SatSub(c.validatorSystem.totalActive, -StakeDelta(c)))
  }

  /** `amount` was split off: the delta moved to exactly delta plus the amount, not above zero, and at
      least twice the minimum stake stays in the account and the target with the validator. */
  ghost predicate SplitWithin(c: Chain, stakeIndex: nat, index: nat, amount: nat, c': Chain)
    requires StakeDelta(c) < 0 && stakeIndex < |c.stakeSystem.list| && index < |c.validatorSystem.list|
  {
    var stake, validator := c.stakeSystem.list[stakeIndex], c.validatorSystem.list[index];
    && StakeDelta(c') == StakeDelta(c) + amount <= 0
    && |c'.stakeSystem.list| == |c.stakeSystem.list| + 1 && |c'.validatorSystem.list| == |c.validatorSystem.list|
    && c'.stakeSystem.list[stakeIndex].lamports == stake.lamports - amount >= 2 * c.stakeSystem.minStake
    && UnstakeTarget(c, validator).Ok?
    && c'.validatorSystem.list[index].activeBalance == validator.activeBalance - amount
    && UnstakeTarget(c, validator).value <= validator.activeBalance - amount
  }

  /** The whole account was deactivated: the overshoot is less than twice the minimum stake, both of the
      delta above zero and of the validator below its target. */
  ghost predicate WholeWithin(c: Chain, stakeIndex: nat, index: nat, c': Chain)
    requires StakeDelta(c) < 0 && stakeIndex < |c.stakeSystem.list| && index < |c.validatorSystem.list|
  {
    var validator := c.validatorSystem.list[index];
    && StakeDelta(c') < 2 * c.stakeSystem.minStake
    && |c'.stakeSystem.list| == |c.stakeSystem.list| && |c'.validatorSystem.list| == |c.validatorSystem.list|
    && UnstakeTarget(c, validator).Ok?
    && c'.validatorSystem.list[index].activeBalance == validator.activeBalance - c.stakeSystem.list[stakeIndex].lamports
    && c'.validatorSystem.list[index].activeBalance > UnstakeTarget(c, validator).value - 2 * c.stakeSystem.minStake
  }

  lemma DeactivatePartLimits(c: Chain, now: Clock, stakeIndex: nat, index: nat, amount: nat, splitKey: Key, rent: nat)
    requires StakeDelta(c) < 0 && c.stakeSystem.minStake > 0
    requires stakeIndex < |c.stakeSystem.list| && index < |c.validatorSystem.list|
    requires var stake, validator := c.stakeSystem.list[stakeIndex], c.validatorSystem.list[index];
             && Cranks.DeactivatePlan(c, now, stake, validator, -StakeDelta(c)) == Ok(Cranks.Part(amount))
             && Cranks.DeactivatePart(c, now, stakeIndex, stake, index, validator, amount, splitKey, rent).Ok?
    ensures var stake, validator := c.stakeSystem.list[stakeIndex], c.validatorSystem.list[index];
            SplitWithin(c, stakeIndex, index, amount,
                        Cranks.DeactivatePart(c, now, stakeIndex, stake, index, validator, amount, splitKey,
                                              rent).value)
  {
    var stake, validator := c.stakeSystem.list[stakeIndex], c.validatorSystem.list[index];
    DeactivatePlanLimits(c, now, stake, validator, -StakeDelta(c));
    CoolingRaisesDelta(c, amount, Cranks.DeactivatePart(c, now, stakeIndex, stake, index, validator, amount, splitKey,
                                                        rent).value);
  }

  lemma DeactivateWholeLimits(c: Chain, now: Clock, stakeIndex: nat, index: nat)
    requires StakeDelta(c) < 0 && c.stakeSystem.minStake > 0
    requires stakeIndex < |c.stakeSystem.list| && index < |c.validatorSystem.list|
    requires var stake, validator := c.stakeSystem.list[stakeIndex], c.validatorSystem.list[index];
             && Cranks.DeactivatePlan(c, now, stake, validator, -StakeDelta(c)) == Ok(Cranks.Whole(stake.lamports))
             && Cranks.DeactivateWhole(c, now, stakeIndex, stake, index, validator).Ok?
    ensures var stake, validator := c.stakeSystem.list[stakeIndex], c.validatorSystem.list[index];
            WholeWithin(c, stakeIndex, index, Cranks.DeactivateWhole(c, now, stakeIndex, stake, index, validator).value)
  {
    var stake, validator := c.stakeSystem.list[stakeIndex], c.validatorSystem.list[index];
    DeactivatePlanLimits(c, now, stake, validator, -StakeDelta(c));
    CoolingRaisesDelta(c, stake.lamports, Cranks.DeactivateWhole(c, now, stakeIndex, stake, index, validator).value);
  }

  /** A successful deactivate_stake runs only on a negative delta, and does nothing, splits, or
      deactivates the whole account, within the limits above. */
  lemma DeactivateStakeLimits(c: Chain, now: Clock, stakeIndex: nat, index: nat, key: Key, splitKey: Key, rent: nat)
    requires c.stakeSystem.minStake > 0 && Cranks.DeactivateStake(c, now, stakeIndex, index, key, splitKey, rent).Ok?
    ensures StakeDelta(c) < 0 && stakeIndex < |c.stakeSystem.list| && index < |c.validatorSystem.list|
    ensures var c' := Cranks.DeactivateStake(c, now, stakeIndex, index, key, splitKey, rent).value;
            || (c' == c && var validator := c.validatorSystem.list[index];
                UnstakeTarget(c, validator).Ok?
                && (validator.activeBalance <= UnstakeTarget(c, validator).value
                    || validator.lastDeltaEpoch == now.epoch))
            || (exists amount: nat :: SplitWithin(c, stakeIndex, index, amount, c'))
            || WholeWithin(c, stakeIndex, index, c')
  {
    var stake, validator := c.stakeSystem.list[stakeIndex], c.validatorSystem.list[index];
    var plan := Cranks.DeactivatePlan(c, now, stake, validator, -StakeDelta(c));
    DeactivatePlanLimits(c, now, stake, validator, -StakeDelta(c));
    if plan.value.Part? {
      DeactivatePartLimits(c, now, stakeIndex, index, plan.value.amount, splitKey, rent);
    } else if plan.value.Whole? {
      DeactivateWholeLimits(c, now, stakeIndex, index);
    }
  }

  // ---------- runs of deactivate_stake ----------

  /** An amount started to cool down: the delta rises by it, up to zero or past it, and what it goes past
      zero by is less than twice the minimum stake. */
  ghost predicate CooledBy(c: Chain, amount: nat, c': Chain) {
    && StakeDelta(c) < 0 && c'.stakeSystem.minStake == c.stakeSystem.minStake
    && c'.stakeSystem.delayedCooling == c.stakeSystem.delayedCooling + amount
    && amount < -StakeDelta(c) + 2 * c.stakeSystem.minStake
    && (if amount <= -StakeDelta(c) then StakeDelta(c') == StakeDelta(c) + amount else 0 <= StakeDelta(c'))
  }

  lemma CoolsBy(c: Chain, amount: nat, c': Chain)
    requires StakeDelta(c) < 0 && c'.stakeSystem.minStake == c.stakeSystem.minStake
    requires amount < -StakeDelta(c) + 2 * c.stakeSystem.minStake
    requires c'.reserve == c.reserve && c'.config == c.config && c'.ticketBalance == c.ticketBalance
    requires c'.emergencyCooling == c.emergencyCooling
             && c'.stakeSystem.delayedCooling == c.stakeSystem.delayedCooling + amount
    ensures CooledBy(c, amount, c')
  {
  }

  lemma DeactivatePartCools(c: Chain, now: Clock, stakeIndex: nat, index: nat, amount: nat, splitKey: Key, rent: nat)
    requires StakeDelta(c) < 0 && c.stakeSystem.minStake > 0
    requires stakeIndex < |c.stakeSystem.list| && index < |c.validatorSystem.list|
    requires var stake, validator := c.stakeSystem.list[stakeIndex], c.validatorSystem.list[index];
             && Cranks.DeactivatePlan(c, now, stake, validator, -StakeDelta(c)) == Ok(Cranks.Part(amount))
             && Cranks.DeactivatePart(c, now, stakeIndex, stake, index, validator, amount, splitKey, rent).Ok?
    ensures var stake, validator := c.stakeSystem.list[stakeIndex], c.validatorSystem.list[index];
            CooledBy(c, amount, Cranks.DeactivatePart(c, now, stakeIndex, stake, index, validator, amount, splitKey,
                                                      rent).value)
  {
    var stake, validator := c.stakeSystem.list[stakeIndex], c.validatorSystem.list[index];
    DeactivatePlanLimits(c, now, stake, validator, -StakeDelta(c));
    CoolsBy(c, amount, Cranks.DeactivatePart(c, now, stakeIndex, stake, index, validator, amount, splitKey,
                                             rent).value);
  }

  lemma DeactivateWholeCools(c: Chain, now: Clock, stakeIndex: nat, index: nat)
    requires StakeDelta(c) < 0 && c.stakeSystem.minStake > 0
    requires stakeIndex < |c.stakeSystem.list| && index < |c.validatorSystem.list|
    requires var stake, validator := c.stakeSystem.list[stakeIndex], c.validatorSystem.list[index];
             && Cranks.DeactivatePlan(c, now, stake, validator, -StakeDelta(c)) == Ok(Cranks.Whole(stake.lamports))
             && Cranks.DeactivateWhole(c, now, stakeIndex, stake, index, validator).Ok?
    ensures var stake, validator := c.stakeSystem.list[stakeIndex], c.validatorSystem.list[index];
            CooledBy(c, stake.lamports, Cranks.DeactivateWhole(c, now, stakeIndex, stake, index, validator).value)
  {
    var stake, validator := c.stakeSystem.list[stakeIndex], c.validatorSystem.list[index];
    DeactivatePlanLimits(c, now, stake, validator, -StakeDelta(c));
    CoolsBy(c, stake.lamports, Cranks.DeactivateWhole(c, now, stakeIndex, stake, index, validator).value);
  }

  lemma DeactivateStakeCools(c: Chain, now: Clock, stakeIndex: nat, index: nat, key: Key, splitKey: Key, rent: nat)
    requires c.stakeSystem.minStake > 0 && Cranks.DeactivateStake(c, now, stakeIndex, index, key, splitKey, rent).Ok?
    ensures var c' := Cranks.DeactivateStake(c, now, stakeIndex, index, key, splitKey, rent).value;
            c' == c || exists amount: nat :: CooledBy(c, amount, c')
  {
    hide CooledBy, Cranks.DeactivatePlan, Cranks.DeactivateWhole, Cranks.DeactivatePart;
    var stake, validator := c.stakeSystem.list[stakeIndex], c.validatorSystem.list[index];
    var plan := Cranks.DeactivatePlan(c, now, stake, validator, -StakeDelta(c));
    DeactivatePlanLimits(c, now, stake, validator, -StakeDelta(c));
    if plan.value.Part? {
      DeactivatePartCools(c, now, stakeIndex, index, plan.value.amount, splitKey, rent);
    } else if plan.value.Whole? {
      DeactivateWholeCools(c, now, stakeIndex, index);
    }
  }

  ghost predicate OnlyDeactivateStake(events: seq<Event>) {
    forall i :: 0 <= i < |events| ==> events[i].action.DeactivateStake?
  }

  /** What is still to be unstaked. */
  function ToUnstake(c: Chain): nat {
    if StakeDelta(c) < 0 then -StakeDelta(c) else 0
  }

  /** All that cooled down came off what was to be unstaked, or covers all of it and exceeds it by less
      than twice the minimum stake. */
  ghost predicate UnstakedDown(c: Chain, c': Chain) {
    var cooled := c'.stakeSystem.delayedCooling - c.stakeSystem.delayedCooling;
    && 0 <= cooled && c'.stakeSystem.minStake == c.stakeSystem.minStake
    && (cooled + ToUnstake(c') == ToUnstake(c)
        || (ToUnstake(c') == 0 < ToUnstake(c) < cooled < ToUnstake(c) + 2 * c.stakeSystem.minStake))
  }

  lemma UnstakedDownThen(c: Chain, c1: Chain, amount: nat, c2: Chain)
    requires UnstakedDown(c, c1) && CooledBy(c1, amount, c2)
    ensures UnstakedDown(c, c2)
  {
  }

  /** How many calls made something cool down. */
  function EffectiveUnstakes(c: Chain, events: seq<Event>): nat {
    if events == [] then 0
    else
      var most := events[..|events| - 1];
      var before, after := Run(c, most).stakeSystem.delayedCooling, Run(c, events).stakeSystem.delayedCooling;
      EffectiveUnstakes(c, most) + if after > before then 1 else 0
  }

  lemma DeactivateStakeStep(c: Chain, e: Event)
    requires Inv(c) && e.action.DeactivateStake?
    ensures Exec(c, e) == c || exists amount: nat :: CooledBy(c, amount, Exec(c, e))
  {
    var a := e.action;
    assert Step(c, e) == Cranks.DeactivateStake(c, e.now, a.stakeIndex, a.index, a.key, a.splitKey, a.rent);
    if Step(c, e).Ok? {
      DeactivateStakeCools(c, e.now, a.stakeIndex, a.index, a.key, a.splitKey, a.rent);
    }
  }

  /** Among calls of deactivate_stake that follow one another, each effective one brings what is to be
      unstaked down, so there are at most as many as lamports to unstake; and together they never cool
      down twice the minimum stake more than that. */
  lemma {:induction false} DeactivateStakeStops(c: Chain, events: seq<Event>)
    requires Inv(c) && OnlyDeactivateStake(events)
    ensures UnstakedDown(c, Run(c, events))
    ensures EffectiveUnstakes(c, events) + ToUnstake(Run(c, events)) <= ToUnstake(c)
  {
    hide Inv, Step;
    if events != [] {
      var most, last := events[..|events| - 1], events[|events| - 1];
      DeactivateStakeStops(c, most);
      RunKeepsInv(c, most);
      var before := Run(c, most);
      DeactivateStakeStep(before, last);
      if Exec(before, last) != before {
        var amount: nat :| CooledBy(before, amount, Exec(before, last));
        UnstakedDownThen(c, before, amount, Exec(before, last));
      }
    }
  }

  // ---------- partial_unstake ----------

  /** What partial_unstake decides for a record of a validator far enough over its target. */
  lemma PartialPlanLimits(c: Chain, stake: StakeRecord, validator: ValidatorRecord, desired: nat)
    requires 0 < c.stakeSystem.minStake <= desired && Cranks.PartialPlan(c, stake, validator, desired).Ok?
    ensures MoveTarget(c).Ok? && StakeTarget(c.validatorSystem, validator, MoveTarget(c).value).Ok?
    ensures var target := StakeTarget(c.validatorSystem, validator, MoveTarget(c).value).value;
            var minStake := c.stakeSystem.minStake;
            match Cranks.PartialPlan(c, stake, validator, desired).value
            case Skip => validator.activeBalance <= target + minStake
            case Whole(amount) =>
              amount == stake.lamports < desired + minStake && validator.activeBalance - amount > target - minStake
            case Part(amount) =>
              && minStake <= amount <= desired && minStake <= stake.lamports - amount
              && target <= validator.activeBalance - amount
              && (amount == desired || validator.activeBalance - amount == target)
  {
  }

  /** `amount` was split off: what was desired or exactly what the validator had over its target, no more
      than either, and at least the minimum stake stays in the account. */
  ghost predicate PartialWithin(c: Chain, stakeIndex: nat, index: nat, desired: nat, target: nat, amount: nat,
                                c': Chain)
    requires stakeIndex < |c.stakeSystem.list| && index < |c.validatorSystem.list|
  {
    && c.stakeSystem.minStake <= amount <= desired && c'.emergencyCooling == c.emergencyCooling + amount
    && (amount == desired || c.validatorSystem.list[index].activeBalance - amount == target)
    && |c'.stakeSystem.list| == |c.stakeSystem.list| + 1 && |c'.validatorSystem.list| == |c.validatorSystem.list|
    && c'.stakeSystem.list[stakeIndex].lamports
       == c.stakeSystem.list[stakeIndex].lamports - amount >= c.stakeSystem.minStake
    && c'.validatorSystem.list[index].activeBalance == c.validatorSystem.list[index].activeBalance - amount >= target
  }

  /** The whole account was deactivated, which takes the validator less than the minimum stake below its
      target and less than that more than desired. */
  ghost predicate PartialWhole(c: Chain, stakeIndex: nat, index: nat, desired: nat, target: nat, c': Chain)
    requires stakeIndex < |c.stakeSystem.list| && index < |c.validatorSystem.list|
  {
    var amount := c.stakeSystem.list[stakeIndex].lamports;
    && amount < desired + c.stakeSystem.minStake && c'.emergencyCooling == c.emergencyCooling + amount
    && |c'.stakeSystem.list| == |c.stakeSystem.list| && |c'.validatorSystem.list| == |c.validatorSystem.list|
    && c'.validatorSystem.list[index].activeBalance == c.validatorSystem.list[index].activeBalance - amount
    && c'.validatorSystem.list[index].activeBalance > target - c.stakeSystem.minStake
  }

  lemma PartialPartLimits(c: Chain, now: Clock, stakeIndex: nat, index: nat, desired: nat, target: nat, amount: nat,
                          splitKey: Key, rent: nat)
    requires stakeIndex < |c.stakeSystem.list| && index < |c.validatorSystem.list|
    requires var stake, validator := c.stakeSystem.list[stakeIndex], c.validatorSystem.list[index];
             && c.stakeSystem.minStake <= amount <= desired && c.stakeSystem.minStake <= stake.lamports - amount
             && target <= validator.activeBalance - amount
             && (amount == desired || validator.activeBalance - amount == target)
             && Cranks.PartialPart(c, now, stakeIndex, stake, index, validator, amount, splitKey, rent).Ok?
    ensures var stake, validator := c.stakeSystem.list[stakeIndex], c.validatorSystem.list[index];
            PartialWithin(c, stakeIndex, index, desired, target, amount,
                          Cranks.PartialPart(c, now, stakeIndex, stake, index, validator, amount, splitKey, rent).value)
  {
  }

  lemma PartialWholeLimits(c: Chain, now: Clock, stakeIndex: nat, index: nat, desired: nat, target: nat)
    requires stakeIndex < |c.stakeSystem.list| && index < |c.validatorSystem.list|
    requires var stake, validator := c.stakeSystem.list[stakeIndex], c.validatorSystem.list[index];
             && stake.lamports < desired + c.stakeSystem.minStake
             && validator.activeBalance - stake.lamports > target - c.stakeSystem.minStake
             && Cranks.PartialWhole(c, now, stakeIndex, stake, index, validator).Ok?
    ensures var stake, validator := c.stakeSystem.list[stakeIndex], c.validatorSystem.list[index];
            PartialWhole(c, stakeIndex, index, desired, target,
                         Cranks.PartialWhole(c, now, stakeIndex, stake, index, validator).value)
  {
  }

  /** A successful partial_unstake does nothing to a validator not far enough over its target, splits, or
      takes the whole account, within these limits. */
  lemma PartialUnstakeLimits(c: Chain, now: Clock, stakeIndex: nat, index: nat, desired: nat, key: Key, splitKey: Key,
                             rent: nat)
    requires c.stakeSystem.minStake > 0
    requires Cranks.PartialUnstake(c, now, stakeIndex, index, desired, key, splitKey, rent).Ok?
    ensures c.stakeSystem.minStake <= desired && stakeIndex < |c.stakeSystem.list| && index < |c.validatorSystem.list|
    ensures MoveTarget(c).Ok? && StakeTarget(c.validatorSystem, c.validatorSystem.list[index], MoveTarget(c).value).Ok?
    ensures var c' := Cranks.PartialUnstake(c, now, stakeIndex, index, desired, key, splitKey, rent).value;
            var target := StakeTarget(c.validatorSystem, c.validatorSystem.list[index], MoveTarget(c).value).value;
            || (c' == c && c.validatorSystem.list[index].activeBalance <= target + c.stakeSystem.minStake)
            || (exists amount: nat :: PartialWithin(c, stakeIndex, index, desired, target, amount, c'))
            || PartialWhole(c, stakeIndex, index, desired, target, c')
  {
    var stake, validator := c.stakeSystem.list[stakeIndex], c.validatorSystem.list[index];
    PartialPlanLimits(c, stake, validator, desired);
    var target := StakeTarget(c.validatorSystem, validator, MoveTarget(c).value).value;
    var plan := Cranks.PartialPlan(c, stake, validator, desired);
    if plan.value.Part? {
      PartialPartLimits(c, now, stakeIndex, index, desired, target, plan.value.amount, splitKey, rent);
    } else if plan.value.Whole? {
      PartialWholeLimits(c, now, stakeIndex, index, desired, target);
    }
  }

  // ---------- redelegate ----------

  /** What redelegate decides: nothing unless the source is a minimum stake over its target and the
      destination one under its own; otherwise all the smaller of the two gaps, or the whole account if
      less than a minimum stake would stay in it. */
  lemma RedelegatePlanExactly(c: Chain, stake: StakeRecord, source: ValidatorRecord, dest: ValidatorRecord,
                              sourceTarget: nat, destTarget: nat)
    requires 0 < c.stakeSystem.minStake && MoveTarget(c).Ok?
    requires StakeTarget(c.validatorSystem, source, MoveTarget(c).value) == Ok(sourceTarget)
    requires StakeTarget(c.validatorSystem, dest, MoveTarget(c).value) == Ok(destTarget)
    requires Cranks.RedelegatePlan(c, stake, source, Ok(dest)).Ok?
    ensures var over, under := source.activeBalance - sourceTarget, destTarget - dest.activeBalance;
            var gap, minStake := Min(over, under), c.stakeSystem.minStake;
            match Cranks.RedelegatePlan(c, stake, source, Ok(dest)).value
            case Skip => gap < minStake
            case Whole(amount) => minStake <= gap && amount == stake.lamports < gap + minStake
            case Part(amount) => minStake <= gap == amount <= stake.lamports - minStake
  {
  }
}
