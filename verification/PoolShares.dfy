/** The liquidity pool's holders are never diluted, and adding then removing liquidity never profits,
    although shares are computed from a floored pool value. */
module PoolShares {
  import opened Results
  import opened Calc
  import opened State
  import opened Ledger
  import Users
  import Pools
  import opened UserBooks
  import opened Price

  // ---------- the worth of mSOL ----------

  // The rate mSOL is valued at: V over S, or one while there is no supply.
  function RateNum(c: Chain): nat {
    if c.msolSupply == 0 then 1 else Virtual(c)
  }

  function RateDen(c: Chain): nat {
    if c.msolSupply == 0 then 1 else c.msolSupply
  }

  lemma WorthFloors(c: Chain, msol: nat)
    requires MsolToSol(c, msol).Ok?
    ensures var q := MsolToSol(c, msol).value;
            RateDen(c) > 0 && q * RateDen(c) <= msol * RateNum(c) < q * RateDen(c) + RateDen(c)
  {
    if c.msolSupply > 0 {
      FloorBounds(msol, Virtual(c), c.msolSupply);
    }
  }

  /** Two amounts valued apart are worth at most their sum valued at once. */
  lemma WorthOfParts(num: nat, den: nat, a: nat, qa: nat, b: nat, qb: nat, all: nat, q: nat)
    requires den > 0 && a + b <= all
    requires qa * den <= a * num && qb * den <= b * num && all * num < q * den + den
    ensures qa + qb <= q
  {
    MulMono(a + b, all, num);
    assert (a + b) * num == a * num + b * num;
    assert (qa + qb) * den == qa * den + qb * den;
    assert (q + 1) * den == q * den + den;
    CancelStrict(qa + qb, q + 1, den);
  }

  /** Taking b out lowers the worth by at most d lamports when b is worth at most d. */
  lemma WorthAfterSale(num: nat, den: nat, all: nat, q: nat, b: nat, rest: nat, qr: nat, d: nat)
    requires den > 0 && all == rest + b
    requires q * den <= all * num && rest * num < qr * den + den && b * num <= d * den
    ensures q <= qr + d
  {
    assert all * num == rest * num + b * num;
    assert (qr + d + 1) * den == qr * den + den + d * den;
    CancelStrict(q, qr + d + 1, den);
  }

  // ---------- no dilution ----------

  /** Every liquid unstake leaves the floored value of the pool at least as high. */
  lemma LiquidUnstakeKeepsPoolValue(c: Chain, msol: nat, funds: nat, ready: bool)
    requires Inv(c) && Pools.LiquidUnstake(c, msol, funds, ready).Ok?
    requires Pools.PoolValue(c).Ok? && Pools.PoolValue(Pools.LiquidUnstake(c, msol, funds, ready).value).Ok?
    ensures Pools.PoolValue(Pools.LiquidUnstake(c, msol, funds, ready).value).value >= Pools.PoolValue(c).value
  {
    var c' := Pools.LiquidUnstake(c, msol, funds, ready).value;
    var lamports := MsolToSol(c, msol).value;
    UnstakeFeeInRange(c, lamports);
    var fee := FeeApply(Pools.UnstakeFee(c, lamports).value, msol);
    PortionAtMost(msol, Pools.UnstakeFee(c, lamports).value, MAX_BASIS_POINTS);
    PortionAtMost(fee, c.liqPool.treasuryCut, MAX_BASIS_POINTS);
    var sold := msol - fee;
    WorthFloors(c, sold);
    WorthFloors(c, c.msolLeg);
    WorthFloors(c', c'.msolLeg);
    WorthOfParts(RateNum(c), RateDen(c), c.msolLeg, MsolToSol(c, c.msolLeg).value, sold, MsolToSol(c, sold).value,
                 c'.msolLeg, MsolToSol(c', c'.msolLeg).value);
  }

  /** An amount is worth at least as much where the price is at least as high. */
  lemma WorthAtHigherPrice(v: nat, s: nat, v': nat, s': nat, m: nat, q: nat, q': nat)
    requires 0 < s && 0 < s' && v * s' <= v' * s
    requires q * s <= m * v && m * v' < q' * s' + s'
    ensures q <= q'
  {
    MulMono(q * s, m * v, s');
    MulMono(v * s', v' * s, m);
    MulSwap(q, s, s');
    MulRotate(v, s', m);
    MulRotate(v', s, m);
    CancelFactor(q * s', m * v', s);
    assert (q' + 1) * s' == q' * s' + s';
    CancelStrict(q, q' + 1, s');
  }

  /** The pool fills the whole order: it gets the deposit for mSOL worth at most that. */
  lemma FullSwapKeepsPoolValue(c: Chain, lamports: nat, c': Chain)
    requires 0 < c.msolSupply && c'.msolSupply == c.msolSupply && Virtual(c') == Virtual(c)
    requires MsolToSol(c, c.msolLeg).Ok? && MsolToSol(c', c'.msolLeg).Ok? && c'.msolLeg <= c.msolLeg
    requires (c.msolLeg - c'.msolLeg) * Virtual(c) <= lamports * c.msolSupply
    ensures MsolToSol(c, c.msolLeg).value <= MsolToSol(c', c'.msolLeg).value + lamports
  {
    WorthFloors(c, c.msolLeg);
    WorthFloors(c', c'.msolLeg);
    WorthAfterSale(Virtual(c), c.msolSupply, c.msolLeg, MsolToSol(c, c.msolLeg).value, c.msolLeg - c'.msolLeg,
                   c'.msolLeg, MsolToSol(c', c'.msolLeg).value, lamports);
  }

  /** The pool sells nothing, and the price does not fall. */
  lemma NoSwapKeepsPoolValue(c: Chain, c': Chain)
    requires 0 < c.msolSupply && 0 < c'.msolSupply && c'.msolLeg == c.msolLeg && NoCheaper(c, c')
    requires MsolToSol(c, c.msolLeg).Ok? && MsolToSol(c', c'.msolLeg).Ok?
    ensures MsolToSol(c, c.msolLeg).value <= MsolToSol(c', c'.msolLeg).value
  {
    WorthFloors(c, c.msolLeg);
    WorthFloors(c', c'.msolLeg);
    WorthAtHigherPrice(Virtual(c), c.msolSupply, Virtual(c'), c'.msolSupply, c.msolLeg,
                       MsolToSol(c, c.msolLeg).value, MsolToSol(c', c'.msolLeg).value);
  }

  lemma DepositLegs(c: Chain, lamports: nat, funds: nat)
    requires c.msolLeg <= c.msolSupply && Users.Deposit(c, lamports, funds).Ok?
    ensures Users.DepositOrder(c, lamports).Ok?
    ensures var c', order := Users.Deposit(c, lamports, funds).value, Users.DepositOrder(c, lamports).value;
            && c'.solLeg == c.solLeg + order.solSwapped && c'.msolLeg == c.msolLeg - order.swapped
               && c'.config == c.config
            && (order.swapped == 0 ==> order.solSwapped == 0)
            && (0 < order.swapped == order.bought ==> order.solSwapped == lamports)
            && (0 < order.swapped < order.bought ==>
                  order.swapped == c.msolLeg && MsolToSol(c, c.msolLeg) == Ok(order.solSwapped))
  {
    SwapCostsAtMostDeposit(c, lamports);
  }

  /** A deposit, whether the pool fills it in full, in part or not at all, leaves the floored value of
      the pool at least as high. */
  lemma DepositKeepsPoolValue(c: Chain, lamports: nat, funds: nat)
    requires Backed(c) && Users.Deposit(c, lamports, funds).Ok?
    requires Pools.PoolValue(c).Ok? && Pools.PoolValue(Users.Deposit(c, lamports, funds).value).Ok?
    ensures Pools.PoolValue(Users.Deposit(c, lamports, funds).value).value >= Pools.PoolValue(c).value
  {
    var c' := Users.Deposit(c, lamports, funds).value;
    DepositEffect(c, lamports, funds);
    DepositLegs(c, lamports, funds);
    var order := Users.DepositOrder(c, lamports).value;
    if c.msolSupply > 0 {
      if order.swapped == 0 {
        DepositKeepsPrice(c, lamports, funds);
        NoSwapKeepsPoolValue(c, c');
      } else if order.swapped == order.bought {
        MintedShares(c, lamports);
        FullSwapKeepsPoolValue(c, lamports, c');
      } else {
        WorthFloors(c', 0);
      }
    }
  }

  lemma AddLiquidityEffect(c: Chain, lamports: nat, funds: nat)
    requires Pools.AddLiquidity(c, lamports, funds).Ok?
    ensures Pools.PoolValue(c).Ok?
    ensures var c' := Pools.AddLiquidity(c, lamports, funds).value;
            && c.lpMint <= c'.lpMint
            && SharesFromValue(lamports, Pools.PoolValue(c).value, c.lpMint) == Ok(c'.lpMint - c.lpMint)
            && c' == c.(solLeg := c.solLeg + lamports, lpMint := c'.lpMint,
                        liqPool := c.liqPool.(lpSupply := c'.lpMint))
  {
  }

  /** Adding liquidity adds exactly the deposit to the floored value, and the value per share does not fall. */
  lemma AddLiquidityKeepsShareValue(c: Chain, lamports: nat, funds: nat)
    requires 0 < c.lpMint && Pools.AddLiquidity(c, lamports, funds).Ok?
    ensures Pools.PoolValue(c).Ok?
    ensures var c' := Pools.AddLiquidity(c, lamports, funds).value;
            var value := Pools.PoolValue(c).value;
            && (Pools.PoolValue(c').Ok? ==> Pools.PoolValue(c').value == value + lamports)
            && c.lpMint <= c'.lpMint
            && (c'.lpMint - c.lpMint) * value <= lamports * c.lpMint
            && (value + lamports) * c.lpMint >= value * c'.lpMint
  {
    AddLiquidityEffect(c, lamports, funds);
    var c' := Pools.AddLiquidity(c, lamports, funds).value;
    var value := Pools.PoolValue(c).value;
    if value > 0 {
      FloorBounds(lamports, c.lpMint, value);
    }
    MintKeepsPrice(value, c.lpMint, lamports, c'.lpMint - c.lpMint, value + lamports);
  }

  lemma LegPerShare(leg: nat, supply: nat, tokens: nat, out: nat)
    requires tokens <= supply && out <= leg && out * supply <= tokens * leg
    ensures (leg - out) * supply >= leg * (supply - tokens)
  {
    assert (leg - out) * supply == leg * supply - out * supply;
    assert leg * (supply - tokens) == leg * supply - tokens * leg;
  }

  /** What a removal pays out of each leg. */
  lemma RemovedFloors(c: Chain, tokens: nat, funds: nat)
    requires Backed(c) && 0 < c.lpMint && Pools.RemoveLiquidity(c, tokens, funds).Ok?
    ensures var c' := Pools.RemoveLiquidity(c, tokens, funds).value;
            && tokens <= c.lpMint && c'.lpMint == c.lpMint - tokens
            && c'.solLeg <= c.solLeg && c'.msolLeg <= c.msolLeg && c.config.rentExempt <= c'.solLeg
            && (c.solLeg - c'.solLeg) * c.lpMint <= tokens * (c.solLeg - c.config.rentExempt)
            && (c.msolLeg - c'.msolLeg) * c.lpMint <= tokens * c.msolLeg
            && MsolToSol(c, c.msolLeg - c'.msolLeg).Ok?
  {
    FloorBounds(tokens, c.solLeg - c.config.rentExempt, c.lpMint);
    FloorBounds(tokens, c.msolLeg, c.lpMint);
    ShareAtMost(tokens, c.solLeg - c.config.rentExempt, c.lpMint);
  }

  /** Removing liquidity lowers neither leg per remaining share. */
  lemma RemoveLiquidityKeepsLegs(c: Chain, tokens: nat, funds: nat)
    requires Backed(c) && 0 < c.lpMint && Pools.RemoveLiquidity(c, tokens, funds).Ok?
    ensures var c' := Pools.RemoveLiquidity(c, tokens, funds).value;
            && (c'.solLeg - c.config.rentExempt) * c.lpMint >= (c.solLeg - c.config.rentExempt) * c'.lpMint
            && c'.msolLeg * c.lpMint >= c.msolLeg * c'.lpMint
  {
    RemovedFloors(c, tokens, funds);
    var c' := Pools.RemoveLiquidity(c, tokens, funds).value;
    LegPerShare(c.solLeg - c.config.rentExempt, c.lpMint, tokens, c.solLeg - c'.solLeg);
    LegPerShare(c.msolLeg, c.lpMint, tokens, c.msolLeg - c'.msolLeg);
  }

  // ---------- adding then removing ----------

  /** s shares out of t are paid q2 mSOL worth q3; the leg's floored worth is w. */
  lemma PaidMsol(num: nat, den: nat, t: nat, s: nat, msol: nat, w: nat, q2: nat, q3: nat)
    requires 0 < den && msol * num < w * den + den && q2 * t <= s * msol && q3 * den <= q2 * num
    ensures q3 * t <= s * (w + 1)
  {
    MulMono(q3 * den, q2 * num, t);
    MulMono(q2 * t, s * msol, num);
    assert w * den + den == (w + 1) * den;
    MulMono(msol * num, (w + 1) * den, s);
    MulSwap(q3, den, t);
    MulSwap(q2, num, t);
    MulRotate(msol, num, s);
    MulRotate(w + 1, den, s);
    CancelFactor(q3 * t, s * (w + 1), den);
  }

  /** s shares of t = l + s are paid q1 lamports and q2 mSOL worth q3. */
  lemma PaidBack(num: nat, den: nat, l: nat, s: nat, d: nat, sol: nat, msol: nat, w: nat, q1: nat, q2: nat, q3: nat)
    requires 0 < den && 0 < l
    requires s * (sol + w) <= d * l && msol * num < w * den + den
    requires q1 * (l + s) <= s * (sol + d) && q2 * (l + s) <= s * msol && q3 * den <= q2 * num
    ensures q1 + q3 <= d
  {
    var t := l + s;
    PaidMsol(num, den, t, s, msol, w, q2, q3);
    assert (q1 + q3) * t == q1 * t + q3 * t;
    assert s * (sol + d) + s * (w + 1) == s * (sol + w) + s * d + s;
    assert (d + 1) * t == d * l + s * d + t;
    CancelStrict(q1 + q3, d + 1, t);
  }

  /** Depositing lamports into a pool that has shares and at once burning the shares received pays back,
      in lamports and in mSOL at its worth, at most the deposit. */
  lemma AddThenRemoveNeverProfits(c: Chain, lamports: nat, funds: nat, tokens: nat, lpFunds: nat)
    requires Inv(c) && 0 < c.lpMint && Pools.AddLiquidity(c, lamports, funds).Ok?
    requires var c1 := Pools.AddLiquidity(c, lamports, funds).value;
             tokens == c1.lpMint - c.lpMint && Pools.RemoveLiquidity(c1, tokens, lpFunds).Ok?
    ensures var c1 := Pools.AddLiquidity(c, lamports, funds).value;
            var c2 := Pools.RemoveLiquidity(c1, tokens, lpFunds).value;
            && c2.solLeg <= c1.solLeg && c2.msolLeg <= c1.msolLeg && MsolToSol(c1, c1.msolLeg - c2.msolLeg).Ok?
            && (c1.solLeg - c2.solLeg) + MsolToSol(c1, c1.msolLeg - c2.msolLeg).value <= lamports
  {
    hide Books, TicketTotals, Pools.RemoveLiquidity;
    var c1 := Pools.AddLiquidity(c, lamports, funds).value;
    var c2 := Pools.RemoveLiquidity(c1, tokens, lpFunds).value;
    AddLiquidityEffect(c, lamports, funds);
    AddLiquidityKeepsShareValue(c, lamports, funds);
    RemovedFloors(c1, tokens, lpFunds);
    WorthFloors(c, c.msolLeg);
    WorthFloors(c1, c1.msolLeg - c2.msolLeg);
    PaidBack(RateNum(c), RateDen(c), c.lpMint, tokens, lamports, c.solLeg - c.config.rentExempt, c.msolLeg,
             MsolToSol(c, c.msolLeg).value, c1.solLeg - c2.solLeg, c1.msolLeg - c2.msolLeg,
             MsolToSol(c1, c1.msolLeg - c2.msolLeg).value);
  }
}
