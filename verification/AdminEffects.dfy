/** What the admin and the manager of the validator list change, exactly, and what a new pool starts with. */
module AdminEffects {
  import opened Results
  import opened Calc
  import opened Sums
  import opened Records
  import opened State
  import opened Admin
  import opened Ledger

  // ---------- the validator list ----------

  /** A new validator is appended with its score and nothing staked, unless it is listed already. */
  lemma AddValidatorExactly(c: Chain, vote: Key, score: u32, bump: u8)
    ensures var r, system := AddValidator(c, vote, score, bump), c.validatorSystem;
            && (r.Ok? <==>
                  && !c.paused && |system.list| < system.capacity && system.totalScore + score < U32_LIMIT
                  && forall i :: 0 <= i < |system.list| ==> system.list[i].vote != vote)
            && (r.Ok? ==>
                  r.value == c.(validatorSystem := system.(
                    list := system.list + [ValidatorRecord(vote, 0, score, NEVER, bump)],
                    totalScore := system.totalScore + score)))
            && (Listed(system.list, vote) ==> r == Err(CallRefused))
            && (c.paused && !Listed(system.list, vote) ==> r == Err(ProgramIsPaused))
            && (r == Err(ListOverflow) <==>
                  !c.paused && !Listed(system.list, vote) && system.capacity <= |system.list|)
  {
  }

  /** A validator without active stake goes, and its score with it; the last one takes its place. */
  lemma RemoveValidatorExactly(c: Chain, index: nat, vote: Key)
    requires Books(c)
    ensures var r, system := RemoveValidator(c, index, vote), c.validatorSystem;
            && (r.Ok? <==>
                  && !c.paused && index < |system.list| && system.list[index].vote == vote
                  && system.list[index].activeBalance == 0)
            && (r.Ok? ==>
                  && system.list[index].score <= system.totalScore
                  && r.value == c.(validatorSystem := system.(
                       list := SwapRemove(system.list, index),
                       totalScore := system.totalScore - system.list[index].score)))
            && (c.paused ==> r == Err(ProgramIsPaused) && SetValidatorScore(c, index, vote, 0) == r)
            && (r == Err(RemovingValidatorWithBalance) <==>
                  !c.paused && index < |system.list| && system.list[index].vote == vote
                  && 0 < system.list[index].activeBalance)
  {
    hide SwapRemove, Agree;
    if index < |c.validatorSystem.list| {
      SumMember(c.validatorSystem.list, Score(), index);
    }
  }

  lemma SetValidatorScoreExactly(c: Chain, index: nat, vote: Key, score: u32)
    requires Books(c)
    ensures var r, system := SetValidatorScore(c, index, vote, score), c.validatorSystem;
            && (r.Ok? <==>
                  && !c.paused && index < |system.list| && system.list[index].vote == vote
                  && system.totalScore - system.list[index].score + score < U32_LIMIT)
            && (r.Ok? ==>
                  && system.list[index].score <= system.totalScore
                  && r.value == c.(validatorSystem := system.(
                       list := system.list[index := system.list[index].(score := score)],
                       totalScore := system.totalScore - system.list[index].score + score)))
  {
    hide Agree;
    if index < |c.validatorSystem.list| {
      SumMember(c.validatorSystem.list, Score(), index);
    }
  }

  // ---------- configuration ----------

  /** A parameter that is given takes its new value, and one that is not stays. */
  predicate Takes<T(==)>(given: Option<T>, before: T, after: T) {
    after == match given case None => before case Some(value) => value
  }

  /** Parameters within their limits are taken over, and nothing else changes; none is otherwise. */
  lemma ConfigMarinadeExactly(c: Chain, p: ConfigParams)
    ensures var r := ConfigMarinade(c, p);
            && (r.Ok? <==>
                  && (p.rewardFee.Some? ==> p.rewardFee.value <= 1_000)
                  && (p.slots.Some? ==> 3_000 <= p.slots.value)
                  && (p.minStake.Some? ==> 10_000_000 <= p.minStake.value)
                  && (p.minWithdraw.Some? ==> p.minWithdraw.value <= 100_000_000)
                  && (p.delayedFee.Some? ==> p.delayedFee.value <= 2_000)
                  && (p.withdrawFee.Some? ==> p.withdrawFee.value <= 2_000))
            && (r.Ok? ==>
                  var c' := r.value;
                  && Takes(p.rewardFee, c.config.rewardFee, c'.config.rewardFee)
                  && Takes(p.minDeposit, c.config.minDeposit, c'.config.minDeposit)
                  && Takes(p.minWithdraw, c.config.minWithdraw, c'.config.minWithdraw)
                  && Takes(p.delayedFee, c.config.delayedFee, c'.config.delayedFee)
                  && Takes(p.withdrawFee, c.config.withdrawFee, c'.config.withdrawFee)
                  && Takes(p.withdrawEnabled, c.config.withdrawEnabled, c'.config.withdrawEnabled)
                  && Takes(p.maxMoved, c.config.maxMoved, c'.config.maxMoved)
                  && Takes(p.slots, c.stakeSystem.slots, c'.stakeSystem.slots)
                  && Takes(p.minStake, c.stakeSystem.minStake, c'.stakeSystem.minStake)
                  && Takes(p.stakingCap, c.stakingCap, c'.stakingCap)
                  && Takes(p.liquidityCap, c.liqPool.solCap, c'.liqPool.solCap)
                  && c'.config.rentExempt == c.config.rentExempt
                  && c' == c.(config := c'.config, stakingCap := c'.stakingCap,
                              stakeSystem := c.stakeSystem.(slots := c'.stakeSystem.slots,
                                                            minStake := c'.stakeSystem.minStake),
                              liqPool := c.liqPool.(solCap := c'.liqPool.solCap)))
  {
  }

  lemma ConfigMarinadeRefusals(c: Chain, p: ConfigParams)
    ensures var r := ConfigMarinade(c, p);
            if p.rewardFee.Some? && 1_000 < p.rewardFee.value then r == Err(RewardsFeeIsTooHigh)
            else if p.slots.Some? && p.slots.value < 3_000 then r == Err(UpdateWindowIsTooLow)
            else if p.minStake.Some? && p.minStake.value < 10_000_000 then r == Err(MinStakeIsTooLow)
            else if p.minWithdraw.Some? && 100_000_000 < p.minWithdraw.value then r == Err(MinWithdrawIsTooHigh)
            else if p.delayedFee.Some? && 2_000 < p.delayedFee.value then r == Err(DelayedUnstakeFeeIsTooHigh)
            else if p.withdrawFee.Some? && 2_000 < p.withdrawFee.value then r == Err(WithdrawStakeAccountFeeIsTooHigh)
            else r.Ok?
  {
  }

  /** The limits on a liquidity pool, at creation and afterwards. */
  lemma PoolRefusals(pool: LiqPool)
    ensures var r := Validate(pool);
            if 10_000 < pool.minFee || 10_000 < pool.maxFee || 10_000 < pool.treasuryCut
              then r == Fail(BasisPointsOverflow)
            else if 1_000 < pool.maxFee then r == Fail(LpMaxFeeIsTooHigh)
            else if pool.maxFee < pool.minFee then r == Fail(LpFeesAreWrongWayRound)
            else if pool.target < 50_000_000_000 then r == Fail(LiquidityTargetTooLow)
            else if 7_500 < pool.treasuryCut then r == Fail(TreasuryCutIsTooHigh)
            else r == Pass
  {
  }

  lemma ConfigLpExactly(c: Chain, minFee: Option<nat>, maxFee: Option<nat>, target: Option<nat>,
                        treasuryCut: Option<nat>)
    ensures var least, most := minFee.Or(c.liqPool.minFee), maxFee.Or(c.liqPool.maxFee);
            var r := ConfigLp(c, minFee, maxFee, target, treasuryCut);
            && (r.Ok? <==>
                  && least <= most <= 1_000 && 50_000_000_000 <= target.Or(c.liqPool.target)
                  && treasuryCut.Or(c.liqPool.treasuryCut) <= 7_500)
            && (r.Ok? ==>
                  var pool := r.value.liqPool;
                  && Takes(minFee, c.liqPool.minFee, pool.minFee) && Takes(maxFee, c.liqPool.maxFee, pool.maxFee)
                  && Takes(target, c.liqPool.target, pool.target)
                  && Takes(treasuryCut, c.liqPool.treasuryCut, pool.treasuryCut)
                  && pool.lpSupply == c.liqPool.lpSupply && pool.solCap == c.liqPool.solCap
                  && r.value == c.(liqPool := pool))
  {
  }

  lemma SwitchesExactly(c: Chain, extraRuns: nat)
    ensures Pause(c) == if c.paused then Err(AlreadyPaused) else Ok(c.(paused := true))
    ensures Resume(c) == if c.paused then Ok(c.(paused := false)) else Err(NotPaused)
    ensures ConfigValidatorSystem(c, extraRuns) == Ok(c.(stakeSystem := c.stakeSystem.(extraRuns := extraRuns)))
    ensures !c.paused ==> Pause(c).Ok? && Resume(Pause(c).value) == Ok(c)
  {
  }

  // ---------- a new pool ----------

  lemma InitializeRefusals(p: InitializeData)
    ensures var r := Initialize(p);
            if 1_000 < p.rewardFee then r == Err(RewardsFeeIsTooHigh)
            else if p.slots < 3_000 then r == Err(UpdateWindowIsTooLow)
            else if p.minStake < 10_000_000 then r == Err(MinStakeIsTooLow)
            else r.Ok? || Validate(LiqPool(p.target, p.maxFee, p.minFee, p.treasuryCut, 0, U64_MAX)) == Fail(r.error)
  {
  }

  /** A pool is created within the limits of its parameters; it holds nothing but the rents of its two
      accounts of lamports, takes no fees on unstaking, and has no caps but on its moves: all lamports. */
  lemma InitializeExactly(p: InitializeData)
    ensures var r := Initialize(p);
            && (r.Ok? <==>
                  && p.rewardFee <= 1_000 && 3_000 <= p.slots && 10_000_000 <= p.minStake
                  && p.minFee <= p.maxFee <= 1_000 && 50_000_000_000 <= p.target && p.treasuryCut <= 7_500)
            && (r.Ok? ==>
                  var c := r.value;
                  && c.stakeSystem.list == [] && c.validatorSystem.list == [] && c.stakes == map[] && c.tickets == map[]
                  && c.validatorSystem.totalActive == c.stakeSystem.delayedCooling == c.emergencyCooling == 0
                  && c.validatorSystem.totalScore == c.stakeSystem.extraRuns == c.ticketBalance == c.ticketCount == 0
                  && c.available == c.msolSupply == c.msolMint == c.msolLeg == c.lpMint == c.liqPool.lpSupply == 0
                  && c.reserve == c.solLeg == c.config.rentExempt == p.rentExempt && c.msolPrice == 0x1_0000_0000
                  && c.stakeSystem.capacity == p.stakeCapacity && c.validatorSystem.capacity == p.validatorCapacity
                  && c.stakeSystem.lastDeltaEpoch == NEVER && c.stakeSystem.minStake == p.minStake
                  && c.stakeSystem.slots == p.slots && c.config.rewardFee == p.rewardFee
                  && c.config.minDeposit == c.config.minWithdraw == 1 && !c.config.withdrawEnabled
                  && c.config.delayedFee == c.config.withdrawFee == 0 && c.config.maxMoved == 10_000
                  && c.liqPool.target == p.target && c.liqPool.minFee == p.minFee && c.liqPool.maxFee == p.maxFee
                  && c.liqPool.treasuryCut == p.treasuryCut && c.liqPool.solCap == c.stakingCap == U64_LIMIT - 1
                  && c.lastMoveEpoch == c.stakeMoved == 0 && !c.paused)
  {
  }
}
