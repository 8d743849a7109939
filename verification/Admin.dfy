/** Creation of the pool, its configuration, and the validator list kept by the manager. */
module Admin {
  import opened Results
  import opened Calc
  import opened Sums
  import opened Records
  import opened State

  datatype Option<+T> = None | Some(value: T) {
    function Or(default: T): T {
      if Some? then value else default
    }
  }

  const MAX_REWARD_FEE: nat := 1_000
  const MAX_WITHDRAW_ATOM: nat := LAMPORTS_PER_SOL / 10
  const MAX_DELAYED_UNSTAKE_FEE: nat := 2000
  const MAX_WITHDRAW_STAKE_ACCOUNT_FEE: nat := 2000
  const MIN_STAKE_LOWER_LIMIT: nat := LAMPORTS_PER_SOL / 100
  const MIN_UPDATE_WINDOW: nat := 3_000
  const MAX_LP_FEE: nat := 1000
  const MIN_LIQUIDITY_TARGET: nat := 50 * LAMPORTS_PER_SOL
  const MAX_TREASURY_CUT: nat := 7500

  // LiqPool::validate
  function Validate(pool: LiqPool): Outcome {
    if pool.minFee > MAX_BASIS_POINTS || pool.maxFee > MAX_BASIS_POINTS || pool.treasuryCut > MAX_BASIS_POINTS
    then Fail(BasisPointsOverflow)
    else if pool.maxFee > MAX_LP_FEE then Fail(LpMaxFeeIsTooHigh)
    else if pool.maxFee < pool.minFee then Fail(LpFeesAreWrongWayRound)
    else if pool.target < MIN_LIQUIDITY_TARGET then Fail(LiquidityTargetTooLow)
    else Need(pool.treasuryCut <= MAX_TREASURY_CUT, TreasuryCutIsTooHigh)
  }

  datatype InitializeData = InitializeData(
    minStake: nat,
    rewardFee: nat,
    slots: nat,
    rentExempt: u64,
    stakeCapacity: nat,
    validatorCapacity: nat,
    target: nat,
    maxFee: nat,
    minFee: nat,
    treasuryCut: nat)

  // Both mints are empty, and the reserve and the SOL leg hold exactly the rent.
  function Initialize(p: InitializeData): Result<Chain> {
    if p.rewardFee > MAX_REWARD_FEE then Err(RewardsFeeIsTooHigh) else
    :- Need(p.slots >= MIN_UPDATE_WINDOW, UpdateWindowIsTooLow);
    :- Need(p.minStake >= MIN_STAKE_LOWER_LIMIT, MinStakeIsTooLow);
    var pool := LiqPool(p.target, p.maxFee, p.minFee, p.treasuryCut, 0, U64_MAX);
    :- Validate(pool);
    Ok(Chain(
      config := Config(rentExempt := p.rentExempt, rewardFee := p.rewardFee, minDeposit := 1, minWithdraw := 1,
                       delayedFee := 0, withdrawFee := 0, withdrawEnabled := false, maxMoved := 10000),
      stakeSystem := StakeSystem(list := [], capacity := p.stakeCapacity, delayedCooling := 0, lastDeltaEpoch := NEVER,
                                 minStake := p.minStake, extraRuns := 0, slots := p.slots),
      validatorSystem := ValidatorSystem(list := [], capacity := p.validatorCapacity, totalScore := 0,
                                         totalActive := 0),
      liqPool := pool,
      available := 0, msolSupply := 0, msolPrice := PRICE_DENOMINATOR, ticketCount := 0, ticketBalance := 0,
      stakingCap := U64_MAX, emergencyCooling := 0, paused := false, lastMoveEpoch := 0, stakeMoved := 0,
      stakes := map[], tickets := map[], reserve := p.rentExempt, msolMint := 0,
      solLeg := p.rentExempt, msolLeg := 0, lpMint := 0))
  }

  // ---------- configuration ----------

  datatype ConfigParams = ConfigParams(
    rewardFee: Option<nat>,
    slots: Option<nat>,
    minStake: Option<nat>,
    minDeposit: Option<nat>,
    minWithdraw: Option<nat>,
    stakingCap: Option<nat>,
    liquidityCap: Option<nat>,
    withdrawEnabled: Option<bool>,
    delayedFee: Option<nat>,
    withdrawFee: Option<nat>,
    maxMoved: Option<nat>)

  function ConfigMarinade(c: Chain, p: ConfigParams): Result<Chain> {
    if p.rewardFee.Some? && p.rewardFee.value > MAX_REWARD_FEE then Err(RewardsFeeIsTooHigh) else
    :- Need(p.slots.Some? ==> p.slots.value >= MIN_UPDATE_WINDOW, UpdateWindowIsTooLow);
    :- Need(p.minStake.Some? ==> p.minStake.value >= MIN_STAKE_LOWER_LIMIT, MinStakeIsTooLow);
    :- Need(p.minWithdraw.Some? ==> p.minWithdraw.value <= MAX_WITHDRAW_ATOM, MinWithdrawIsTooHigh);
    :- Need(p.delayedFee.Some? ==> p.delayedFee.value <= MAX_DELAYED_UNSTAKE_FEE, DelayedUnstakeFeeIsTooHigh);
    :- Need(p.withdrawFee.Some? ==> p.withdrawFee.value <= MAX_WITHDRAW_STAKE_ACCOUNT_FEE,
            WithdrawStakeAccountFeeIsTooHigh);
    Ok(c.(
      config := c.config.(
        rewardFee := p.rewardFee.Or(c.config.rewardFee),
        minDeposit := p.minDeposit.Or(c.config.minDeposit),
        minWithdraw := p.minWithdraw.Or(c.config.minWithdraw),
        delayedFee := p.delayedFee.Or(c.config.delayedFee),
        withdrawFee := p.withdrawFee.Or(c.config.withdrawFee),
        withdrawEnabled := p.withdrawEnabled.Or(c.config.withdrawEnabled),
        maxMoved := p.maxMoved.Or(c.config.maxMoved)),
      stakeSystem := c.stakeSystem.(
        slots := p.slots.Or(c.stakeSystem.slots),
        minStake := p.minStake.Or(c.stakeSystem.minStake)),
      stakingCap := p.stakingCap.Or(c.stakingCap),
      liqPool := c.liqPool.(solCap := p.liquidityCap.Or(c.liqPool.solCap))))
  }

  function ConfigLp(c: Chain, minFee: Option<nat>, maxFee: Option<nat>, target: Option<nat>,
                    treasuryCut: Option<nat>): Result<Chain> {
    var pool := c.liqPool.(
      minFee := minFee.Or(c.liqPool.minFee),
      maxFee := maxFee.Or(c.liqPool.maxFee),
      target := target.Or(c.liqPool.target),
      treasuryCut := treasuryCut.Or(c.liqPool.treasuryCut));
    :- Validate(pool);
    Ok(c.(liqPool := pool))
  }

  function ConfigValidatorSystem(c: Chain, extraRuns: nat): Result<Chain> {
    Ok(c.(stakeSystem := c.stakeSystem.(extraRuns := extraRuns)))
  }

  function Pause(c: Chain): Result<Chain> {
    if c.paused then Err(AlreadyPaused) else Ok(c.(paused := true))
  }

  function Resume(c: Chain): Result<Chain> {
    if c.paused then Ok(c.(paused := false)) else Err(NotPaused)
  }

  // ---------- the validator list ----------

  // A listed validator has its duplication flag account, so it cannot be added again.
  predicate Listed(list: seq<ValidatorRecord>, vote: Key) {
    exists i :: 0 <= i < |list| && list[i].vote == vote
  }

  function AddValidator(c: Chain, vote: Key, score: u32, bump: u8): Result<Chain> {
    if Listed(c.validatorSystem.list, vote) then Err(CallRefused) else
    :- Running(c);
    :- Need(|c.validatorSystem.list| < c.validatorSystem.capacity, ListOverflow);
    var total :- U32(c.validatorSystem.totalScore + score);
    Ok(c.(validatorSystem := c.validatorSystem.(
            list := c.validatorSystem.list + [ValidatorRecord(vote, 0, score, NEVER, bump)],
            totalScore := total)))
  }

  function RemoveValidator(c: Chain, index: nat, vote: Key): Result<Chain> {
    if c.paused then Err(ProgramIsPaused) else
    var validator :- GetValidator(c.validatorSystem, index, vote);
    :- Need(validator.activeBalance == 0, RemovingValidatorWithBalance);
    var total :- Sub(c.validatorSystem.totalScore, validator.score, BalanceUnderflow);
    Ok(c.(validatorSystem := c.validatorSystem.(
            list := SwapRemove(c.validatorSystem.list, index),
            totalScore := total)))
  }

  function SetValidatorScore(c: Chain, index: nat, vote: Key, score: u32): Result<Chain> {
    if c.paused then Err(ProgramIsPaused) else
    var validator :- GetValidator(c.validatorSystem, index, vote);
    var others :- Sub(c.validatorSystem.totalScore, validator.score, BalanceUnderflow);
    var total :- U32(others + score);
    Ok(WithValidator(c.(validatorSystem := c.validatorSystem.(totalScore := total)), index, validator.(score := score)))
  }
}
