/** What the liquidity pool pays and takes, exactly: when each of its instructions succeeds, and the whole
    chain afterwards, in amounts that are given by what they round to. */
module PoolEffects {
  import opened Results
  import opened Calc
  import opened State
  import opened Admin
  import opened Ledger
  import opened Rates
  import Pools

  // ---------- liquid_unstake ----------

  /** The lamports the pool can pay out of its SOL leg. */
  function Liquidity(c: Chain): nat {
    if c.solLeg < c.config.rentExempt then 0 else c.solLeg - c.config.rentExempt
  }

  /** The fee falls in a straight line from the maximum without liquidity to the minimum at the target, and
      no further: `left` lamports of the way cost the maximum less that part of the distance, rounded down. */
  predicate FeeWith(pool: LiqPool, left: nat, points: nat) {
    if left >= pool.target then points == pool.minFee
    else
      && points <= pool.maxFee
      && (pool.maxFee - points) * pool.target <= (pool.maxFee - pool.minFee) * left
      && (pool.maxFee - pool.minFee) * left < (pool.maxFee - points + 1) * pool.target
  }

  /** The fee of an unstake worth `worth` is for the liquidity it would leave. */
  predicate FeePoints(c: Chain, worth: nat, points: nat) {
    if worth >= Liquidity(c) then points == c.liqPool.maxFee
    else FeeWith(c.liqPool, Liquidity(c) - worth, points)
  }

  lemma LinearFeeIs(pool: LiqPool, left: nat, points: nat)
    requires Validate(pool).Pass? && FeeWith(pool, left, points)
    ensures Pools.LinearFee(pool, left) == Ok(points) && points <= pool.maxFee
  {
    if left < pool.target {
      var down := pool.maxFee - points;
      assert Floors(down, pool.maxFee - pool.minFee, left, pool.target);
      FloorsProportional(down, pool.maxFee - pool.minFee, left, pool.target);
    }
  }

  /** Without liquidity the line starts at the maximum. */
  lemma FeeWithoutLiquidity(pool: LiqPool, points: nat)
    requires Validate(pool).Pass? && FeeWith(pool, 0, points)
    ensures points == pool.maxFee
  {
    CancelFactor(pool.maxFee - points, 0, pool.target);
  }

  /** More liquidity never means a higher fee. */
  lemma FeeFallsWithLiquidity(pool: LiqPool, left: nat, points: nat, more: nat, points': nat)
    requires Validate(pool).Pass? && left <= more && FeeWith(pool, left, points) && FeeWith(pool, more, points')
    ensures pool.minFee <= points' <= points <= pool.maxFee
  {
    var delta, target := pool.maxFee - pool.minFee, pool.target;
    if left < target {
      MulMono(left, target, delta);
      assert delta * left == left * delta && target * delta == delta * target;
      CancelFactor(pool.maxFee - points, delta, target);
    }
    if more < target {
      MulMono(more, target, delta);
      MulMono(left, more, delta);
      assert delta * more == more * delta && delta * left == left * delta && target * delta == delta * target;
      CancelFactor(pool.maxFee - points', delta, target);
      CancelStrict(pool.maxFee - points, pool.maxFee - points' + 1, target);
    }
  }

  predicate LiquidUnstakeAccepted(c: Chain, msol: nat, funds: nat, worth: nat, paid: nat, cut: nat)
    requires cut <= msol
  {
    && !c.paused && msol <= funds && c.msolLeg + funds <= c.msolMint
    && InPool(c) < U64_LIMIT && worth < U64_LIMIT && paid < U64_LIMIT
    && paid <= Liquidity(c) && paid + c.config.rentExempt < U64_LIMIT && c.config.minWithdraw <= paid
    && c.msolLeg + (msol - cut) < U64_LIMIT
  }

  /** A liquid unstake pays the worth of the mSOL less the fee, which is charged in mSOL; the pool keeps all
      mSOL but the treasury's cut of the fee. */
  lemma LiquidUnstakeExactly(c: Chain, msol: nat, funds: nat, ready: bool, worth: nat, points: nat, fee: nat,
                             paid: nat, cut: nat)
    requires Inv(c) && msol < U64_LIMIT
    requires IsWorth(worth, msol, Backing(c), c.msolSupply) && FeePoints(c, worth, points)
    requires Floors(fee, msol, points, 10_000)
    requires fee <= msol ==> IsWorth(paid, msol - fee, Backing(c), c.msolSupply)
    requires if ready then Floors(cut, fee, c.liqPool.treasuryCut, 10_000) else cut == 0
    ensures cut <= fee <= msol
    ensures var r := Pools.LiquidUnstake(c, msol, funds, ready);
            && (r.Ok? <==> LiquidUnstakeAccepted(c, msol, funds, worth, paid, cut))
            && (r.Ok? ==>
                  paid <= c.solLeg
                  && r.value == c.(solLeg := c.solLeg - paid, msolLeg := c.msolLeg + (msol - cut)))
  {
    hide Books, TicketTotals, IsWorth, Floors, FeeWith, Backing, MsolToSol, Portion, Pools.LinearFee;
    WorthLamports(c, worth, msol);
    if worth < Liquidity(c) {
      LinearFeeIs(c.liqPool, Liquidity(c) - worth, points);
    }
    FloorsPortion(fee, msol, points, 10_000);
    WorthLamports(c, paid, msol - fee);
    if ready {
      FloorsPortion(cut, fee, c.liqPool.treasuryCut, 10_000);
    }
  }

  // ---------- add_liquidity ----------

  predicate LiquidityAccepted(c: Chain, lamports: nat, funds: nat, worth: nat, shares: nat) {
    && !c.paused && c.config.minDeposit <= lamports <= funds
    && c.solLeg + lamports < U64_LIMIT && c.solLeg + lamports <= c.liqPool.solCap && c.lpMint <= c.liqPool.lpSupply
    && InPool(c) < U64_LIMIT && worth < U64_LIMIT && Liquidity(c) + worth < U64_LIMIT
    && shares < U64_LIMIT && c.lpMint + shares < U64_LIMIT
  }

  /** Added lamports buy shares at the value of both legs before them, out of the shares there really are;
      both supplies are then the same. */
  lemma AddLiquidityExactly(c: Chain, lamports: nat, funds: nat, worth: nat, shares: nat)
    requires Backed(c) && lamports < U64_LIMIT && c.msolLeg < U64_LIMIT
    requires IsWorth(worth, c.msolLeg, Backing(c), c.msolSupply)
    requires Buys(shares, lamports, Liquidity(c) + worth, c.lpMint)
    ensures var r := Pools.AddLiquidity(c, lamports, funds);
            && (r.Ok? <==> LiquidityAccepted(c, lamports, funds, worth, shares))
            && (r.Ok? ==>
                  r.value == c.(solLeg := c.solLeg + lamports, lpMint := c.lpMint + shares,
                                liqPool := c.liqPool.(lpSupply := c.lpMint + shares)))
  {
    hide IsWorth, Backing, MsolToSol;
    WorthLamports(c, worth, c.msolLeg);
    if c.lpMint > 0 {
      FloorsProportional(shares, lamports, c.lpMint, Liquidity(c) + worth);
    }
  }

  // ---------- remove_liquidity ----------

  /** The shares a removal goes by: the fewer of those there really are and those the pool knows of. */
  function KnownShares(c: Chain): nat {
    if c.liqPool.lpSupply < c.lpMint then c.liqPool.lpSupply else c.lpMint
  }

  predicate RemovalAccepted(c: Chain, tokens: nat, funds: nat, sol: nat, msol: nat, worth: nat) {
    && !c.paused && tokens <= funds <= c.lpMint && c.config.rentExempt <= c.solLeg
    && sol < U64_LIMIT && msol < U64_LIMIT && InPool(c) < U64_LIMIT && worth < U64_LIMIT
    && sol + worth < U64_LIMIT && c.config.minWithdraw <= sol + worth
    && sol <= c.solLeg && msol <= c.msolLeg && tokens <= KnownShares(c)
  }

  /** Burned shares are paid their part of both legs, the SOL leg less the rent, each rounded down; both
      supplies lose them. */
  lemma RemoveLiquidityExactly(c: Chain, tokens: nat, funds: nat, sol: nat, msol: nat, worth: nat)
    requires tokens < U64_LIMIT
    requires Floors(sol, tokens, Liquidity(c), KnownShares(c)) && Floors(msol, tokens, c.msolLeg, KnownShares(c))
    requires IsWorth(worth, msol, Backing(c), c.msolSupply)
    ensures var r := Pools.RemoveLiquidity(c, tokens, funds);
            && (r.Ok? <==> RemovalAccepted(c, tokens, funds, sol, msol, worth))
            && (r.Ok? ==>
                  sol <= c.solLeg && msol <= c.msolLeg && tokens <= c.lpMint && tokens <= KnownShares(c)
                  && r.value == c.(solLeg := c.solLeg - sol, msolLeg := c.msolLeg - msol, lpMint := c.lpMint - tokens,
                                   liqPool := c.liqPool.(lpSupply := KnownShares(c) - tokens)))
  {
    hide IsWorth, Floors, Backing, MsolToSol;
    FloorsProportional(sol, tokens, Liquidity(c), KnownShares(c));
    FloorsProportional(msol, tokens, c.msolLeg, KnownShares(c));
    if msol < U64_LIMIT {
      WorthLamports(c, worth, msol);
    }
  }

  /** In a pool whose books agree, that is at most what is in the legs, and the supplies stay equal. */
  lemma RemovalIsCovered(c: Chain, tokens: nat, sol: nat, msol: nat)
    requires Backed(c) && tokens <= c.lpMint && 0 < c.lpMint
    requires Floors(sol, tokens, Liquidity(c), KnownShares(c)) && Floors(msol, tokens, c.msolLeg, KnownShares(c))
    ensures KnownShares(c) == c.lpMint && sol <= Liquidity(c) && msol <= c.msolLeg
  {
    MulMono(tokens, c.lpMint, Liquidity(c));
    MulMono(tokens, c.lpMint, c.msolLeg);
    CancelFactor(sol, Liquidity(c), c.lpMint);
    CancelFactor(msol, c.msolLeg, c.lpMint);
  }
}
