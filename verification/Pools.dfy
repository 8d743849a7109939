/** The SOL/mSOL liquidity pool: liquid unstakes, and adding and removing liquidity. */
module Pools {
  import opened Results
  import opened Calc
  import opened State

  // The unstake fee falls linearly from the maximum, at no liquidity, to the minimum at the target.
  function LinearFee(pool: LiqPool, lamports: nat): Result<nat> {
    if lamports >= pool.target then
      Ok(pool.minFee)
    else
      var discount :- Proportional(SatSub(pool.maxFee, pool.minFee), lamports, pool.target);
      Sub(pool.maxFee, discount, BalanceUnderflow)
  }

  function UnstakeFee(c: Chain, lamports: nat): Result<nat> {
    var leg := SatSub(c.solLeg, c.config.rentExempt);
    if lamports >= leg then Ok(c.liqPool.maxFee) else LinearFee(c.liqPool, leg - lamports)
  }

  function TreasuryCut(c: Chain, fee: nat, treasuryReady: bool): nat {
    if treasuryReady then FeeApply(c.liqPool.treasuryCut, fee) else 0
  }

  function LiquidUnstake(c: Chain, msol: nat, funds: nat, treasuryReady: bool): Result<Chain> {
    if c.paused then Err(ProgramIsPaused) else
    :- CheckMsolSource(c, msol, funds);
    var lamports :- MsolToSol(c, msol);
    var feePoints :- UnstakeFee(c, lamports);
    var fee := FeeApply(feePoints, msol);
    var sold :- Sub(msol, fee, BalanceUnderflow);
    var out :- MsolToSol(c, sold);
    var needed :- U64(out + c.config.rentExempt);
    :- Need(needed <= c.solLeg, InsufficientLiquidity);
    :- Need(out >= c.config.minWithdraw, WithdrawAmountIsTooLow);
    var kept :- Sub(msol, TreasuryCut(c, fee, treasuryReady), BalanceUnderflow);
    var msolLeg :- U64(c.msolLeg + kept);
    Ok(c.(solLeg := c.solLeg - out, msolLeg := msolLeg))
  }

  // The value of both legs in lamports, the mSOL leg rounded down.
  function PoolValue(c: Chain): Result<nat> {
    var sol :- Sub(c.solLeg, c.config.rentExempt, BalanceUnderflow);
    var msolValue :- MsolToSol(c, c.msolLeg);
    U64(sol + msolValue)
  }

  function AddLiquidity(c: Chain, lamports: nat, funds: nat): Result<Chain> {
    if c.paused then Err(ProgramIsPaused) else
    :- Need(lamports >= c.config.minDeposit, DepositAmountIsTooLow);
    :- Need(lamports <= funds, NotEnoughUserFunds);
    var solLeg :- U64(c.solLeg + lamports);
    :- Need(solLeg <= c.liqPool.solCap, LiquidityIsCapped);
    :- Need(c.lpMint <= c.liqPool.lpSupply, UnregisteredLPMinted);
    var value :- PoolValue(c);
    var shares :- SharesFromValue(lamports, value, c.lpMint);
    var supply :- U64(c.lpMint + shares);
    Ok(c.(solLeg := solLeg, lpMint := supply, liqPool := c.liqPool.(lpSupply := supply)))
  }

  // What some LP tokens of a supply are paid from both legs.
  datatype Payout = Payout(sol: nat, msol: nat)

  function PayoutOf(c: Chain, tokens: nat, supply: nat): Result<Payout> {
    var sol :- Sub(c.solLeg, c.config.rentExempt, BalanceUnderflow);
    var solOut :- Proportional(tokens, sol, supply);
    var msolOut :- Proportional(tokens, c.msolLeg, supply);
    var msolValue :- MsolToSol(c, msolOut);
    var value :- U64(solOut + msolValue);
    :- Need(value >= c.config.minWithdraw, WithdrawAmountIsTooLow);
    Ok(Payout(solOut, msolOut))
  }

  function RemoveLiquidity(c: Chain, tokens: nat, funds: nat): Result<Chain> {
    if c.paused then Err(ProgramIsPaused) else
    :- Need(tokens <= funds <= c.lpMint, NotEnoughUserFunds);
    var supply := if c.lpMint > c.liqPool.lpSupply then c.liqPool.lpSupply else c.lpMint;
    var out :- PayoutOf(c, tokens, supply);
    PayOut(c, tokens, supply, out)
  }

  function PayOut(c: Chain, tokens: nat, supply: nat, out: Payout): Result<Chain>
    requires tokens <= c.lpMint
  {
    var solLeg :- Sub(c.solLeg, out.sol, CallRefused);
    var msolLeg :- Sub(c.msolLeg, out.msol, CallRefused);
    var left :- Sub(supply, tokens, BalanceUnderflow);
    Ok(c.(solLeg := solLeg, msolLeg := msolLeg, lpMint := c.lpMint - tokens, liqPool := c.liqPool.(lpSupply := left)))
  }
}
