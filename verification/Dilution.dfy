/** Over whole runs without slashes and withdrawn stake accounts, what a share of the liquidity pool is
    exactly worth falls by no more than the roundings of deposits and added liquidity, which are less than
    one lamport of the whole pool each. */
module Dilution {
  import opened Results
  import opened Calc
  import opened Records
  import opened State
  import opened Ledger
  import opened Machine
  import Users
  import Pools
  import opened CrankBooks
  import opened UpdateBooks
  import opened UserBooks
  import opened Invariants
  import opened Price
  import opened PoolShares

  // ---------- exact worth ----------

  /** Lamports for one unit of mSOL, not rounded. */
  function Rate(c: Chain): real {
    if c.msolSupply == 0 then 1.0 else Virtual(c) as real / c.msolSupply as real
  }

  /** What both legs of the pool are worth in lamports, not rounded. */
  function Worth(c: Chain): real {
    (c.solLeg - c.config.rentExempt) as real + c.msolLeg as real * Rate(c)
  }

  function PerShare(c: Chain): real
    requires 0 < c.lpMint
  {
    Worth(c) / c.lpMint as real
  }

  // ---------- real arithmetic ----------

  lemma QuotientOrder(a: real, b: real, d: real)
    requires 0.0 < d && a <= b
    ensures a / d <= b / d
  {
  }

  lemma SmallerDivisor(a: real, d: real, d': real)
    requires 0.0 <= a && 0.0 < d' <= d
    ensures a / d <= a / d'
  {
    assert a / d' == (a / d) * (d / d');
    assert 1.0 <= d / d';
    assert 0.0 <= a / d;
  }

  lemma ProductOrder(a: real, b: real, x: real)
    requires a <= b && 0.0 <= x
    ensures a * x <= b * x
  {
  }

  lemma CrossOrder(a: real, b: real, d: real, e: real)
    requires 0.0 < d && 0.0 < e && a * e <= b * d
    ensures a / d <= b / e
  {
    QuotientOrder(a * e, b * d, d * e);
    assert a * e / (d * e) == a / d && b * d / (d * e) == b / e;
  }

  // ---------- rounded and exact ----------

  lemma RateIsQuotient(c: Chain)
    ensures 0 < RateDen(c) && Rate(c) * RateDen(c) as real == RateNum(c) as real && 0.0 <= Rate(c)
  {
  }

  lemma Associates(a: real, b: real, d: real)
    ensures (a * b) * d == a * (b * d)
  {
  }

  lemma FloorIsNear(q: nat, m: nat, n: nat, d: nat, rate: real)
    requires 0 < d && rate * d as real == n as real && q * d <= m * n < q * d + d
    ensures q as real <= m as real * rate < q as real + 1.0
  {
    var x, r := m as real * rate, d as real;
    Associates(m as real, rate, r);
    assert x * r == (m * n) as real && q as real * r == (q * d) as real;
    assert (q as real + 1.0) * r == (q * d + d) as real;
    RealCancel(q as real, x, r);
    RealCancelStrict(x, q as real + 1.0, r);
  }

  /** The rounded worth of some mSOL is at most its exact worth, and less than one lamport short of it. */
  lemma WorthRounds(c: Chain, msol: nat)
    requires MsolToSol(c, msol).Ok?
    ensures var q := MsolToSol(c, msol).value;
            q as real <= msol as real * Rate(c) < q as real + 1.0
  {
    WorthFloors(c, msol);
    RateIsQuotient(c);
    FloorIsNear(MsolToSol(c, msol).value, msol, RateNum(c), RateDen(c), Rate(c));
  }

  lemma RealCancel(a: real, b: real, d: real)
    requires 0.0 < d && a * d <= b * d
    ensures a <= b
  {
  }

  lemma RealCancelStrict(a: real, b: real, d: real)
    requires 0.0 < d && a * d < b * d
    ensures a < b
  {
  }

  lemma RateNeverFell(c: Chain, c': Chain)
    requires 0 < c.msolSupply && 0 < c'.msolSupply && NoCheaper(c, c')
    ensures Rate(c) <= Rate(c')
  {
    var v, s, v', s' := Virtual(c), c.msolSupply, Virtual(c'), c'.msolSupply;
    assert (v * s') as real == v as real * s' as real && (v' * s) as real == v' as real * s as real;
    CrossOrder(v as real, v' as real, s as real, s' as real);
  }

  // ---------- per share ----------

  lemma GrownPerShare(w: real, l: real, w': real, l': real)
    requires 0.0 <= w <= w' && 0.0 < l' <= l
    ensures w / l <= w' / l'
  {
    SmallerDivisor(w, l, l');
    QuotientOrder(w, w', l');
  }

  lemma OneLessPerShare(w: real, l: real, w': real)
    requires 0.0 < l && w - 1.0 <= w'
    ensures w / l - 1.0 / l <= w' / l
  {
    QuotientOrder(w - 1.0, w', l);
    assert (w - 1.0) / l == w / l - 1.0 / l;
  }

  lemma WorthIsNonNegative(c: Chain)
    requires Backed(c)
    ensures 0.0 <= Worth(c)
  {
    RateIsQuotient(c);
  }

  /** Neither leg nor the price of mSOL fell, and no shares were added. */
  ghost predicate LegsKept(c: Chain, c': Chain) {
    && c'.config.rentExempt == c.config.rentExempt && c.solLeg <= c'.solLeg && c.msolLeg <= c'.msolLeg
    && c'.lpMint <= c.lpMint
  }

  lemma LegOrder(m: real, r: real, m': real, r': real)
    requires 0.0 <= m <= m' && 0.0 <= r' && (m == 0.0 || r <= r')
    ensures m * r <= m' * r'
  {
    ProductOrder(m, m', r');
    if m != 0.0 {
      ProductOrder(r, r', m);
      assert r * m == m * r && r' * m == m * r';
    }
  }

  lemma LegsKeptWorth(c: Chain, c': Chain)
    requires Backed(c) && Backed(c') && LegsKept(c, c') && (0 < c.msolLeg ==> NoCheaper(c, c'))
    ensures Worth(c) <= Worth(c')
  {
    hide Rate, NoCheaper;
    RateIsQuotient(c');
    if 0 < c.msolLeg {
      RateNeverFell(c, c');
    }
    LegOrder(c.msolLeg as real, Rate(c), c'.msolLeg as real, Rate(c'));
  }

  lemma LegsKeptPerShare(c: Chain, c': Chain)
    requires Backed(c) && Backed(c') && LegsKept(c, c') && (0 < c.msolLeg ==> NoCheaper(c, c')) && 0 < c'.lpMint
    ensures PerShare(c) <= PerShare(c')
  {
    LegsKeptWorth(c, c');
    WorthIsNonNegative(c);
    GrownPerShare(Worth(c), c.lpMint as real, Worth(c'), c'.lpMint as real);
  }

  // ---------- deposits ----------

  /** What swapping mSOL out of the leg for lamports does to the worth, at an unchanged rate. */
  lemma SwappedWorth(c: Chain, sol: nat, msol: nat, c': Chain)
    requires c'.config.rentExempt == c.config.rentExempt && Rate(c') == Rate(c) && msol <= c.msolLeg
    requires c'.solLeg == c.solLeg + sol && c'.msolLeg == c.msolLeg - msol
    ensures Worth(c') == Worth(c) + sol as real - msol as real * Rate(c)
  {
    assert (c.msolLeg - msol) as real * Rate(c) == c.msolLeg as real * Rate(c) - msol as real * Rate(c);
  }

  lemma SharesAreCovered(c: Chain, lamports: nat)
    requires MsolFromLamports(c, lamports).Ok? && 0 < c.msolSupply
    ensures MsolFromLamports(c, lamports).value as real * Rate(c) <= lamports as real
  {
    hide Rate, Virtual, MsolFromLamports;
    var shares, v, s := MsolFromLamports(c, lamports).value, Virtual(c), c.msolSupply;
    MintedShares(c, lamports);
    RateIsQuotient(c);
    Associates(shares as real, Rate(c), s as real);
    assert shares as real * v as real == (shares * v) as real && (lamports * s) as real == lamports as real * s as real;
    RealCancel(shares as real * Rate(c), lamports as real, s as real);
  }

  /** The pool sold all its mSOL for its rounded worth. */
  lemma SoldOutWorth(c: Chain, c': Chain)
    requires MsolToSol(c, c.msolLeg).Ok? && c'.config.rentExempt == c.config.rentExempt
    requires c'.solLeg == c.solLeg + MsolToSol(c, c.msolLeg).value && c'.msolLeg == 0
    ensures Worth(c) - 1.0 <= Worth(c')
  {
    WorthRounds(c, c.msolLeg);
  }

  /** What a deposit does to the legs, the rate and the shares. */
  lemma DepositOutcome(c: Chain, lamports: nat, funds: nat)
    requires Inv(c) && Users.Deposit(c, lamports, funds).Ok?
    ensures Users.DepositOrder(c, lamports).Ok? && Backed(c) && c.msolLeg <= c.msolSupply
    ensures var c', order := Users.Deposit(c, lamports, funds).value, Users.DepositOrder(c, lamports).value;
            && Backed(c') && c'.lpMint == c.lpMint && c'.config == c.config
            && c'.solLeg == c.solLeg + order.solSwapped && c'.msolLeg == c.msolLeg - order.swapped
            && order.swapped <= c.msolLeg && order.swapped <= order.bought
            && (order.swapped == 0 ==> order.solSwapped == 0)
            && (0 < order.swapped ==> 0 < c.msolSupply)
            && (0 < order.swapped == order.bought ==>
                  order.solSwapped == lamports && MsolFromLamports(c, lamports) == Ok(order.bought)
                  && Rate(c') == Rate(c))
            && (0 < order.swapped < order.bought ==>
                  c'.msolLeg == 0 && MsolToSol(c, c.msolLeg) == Ok(order.solSwapped))
  {
    DepositEffect(c, lamports, funds);
    DepositLegs(c, lamports, funds);
    DepositKeepsFunds(c, lamports, funds);
  }

  lemma DepositWorth(c: Chain, lamports: nat, funds: nat)
    requires Inv(c) && Users.Deposit(c, lamports, funds).Ok?
    ensures var c' := Users.Deposit(c, lamports, funds).value;
            c'.lpMint == c.lpMint && Worth(c) - 1.0 <= Worth(c')
  {
    hide Inv, Users.Deposit, Users.DepositOrder, Worth, NoCheaper;
    var c' := Users.Deposit(c, lamports, funds).value;
    DepositOutcome(c, lamports, funds);
    var order := Users.DepositOrder(c, lamports).value;
    if order.swapped == 0 {
      if 0 < c.msolLeg {
        DepositKeepsPrice(c, lamports, funds);
      }
      LegsKeptWorth(c, c');
    } else if order.swapped == order.bought {
      SharesAreCovered(c, lamports);
      SwappedWorth(c, lamports, order.swapped, c');
    } else {
      SoldOutWorth(c, c');
    }
  }

  // ---------- the pool's own instructions ----------

  lemma LiquidUnstakeEffect(c: Chain, msol: nat, funds: nat, ready: bool)
    requires Inv(c) && Pools.LiquidUnstake(c, msol, funds, ready).Ok?
    ensures var c' := Pools.LiquidUnstake(c, msol, funds, ready).value;
            && c'.lpMint == c.lpMint && c'.config == c.config && Rate(c') == Rate(c)
            && c'.solLeg <= c.solLeg && c.msolLeg <= c'.msolLeg
            && exists sold: nat :: sold <= c'.msolLeg - c.msolLeg && MsolToSol(c, sold) == Ok(c.solLeg - c'.solLeg)
  {
    var lamports := MsolToSol(c, msol).value;
    UnstakeFeeInRange(c, lamports);
    var points := Pools.UnstakeFee(c, lamports).value;
    var fee := FeeApply(points, msol);
    PortionAtMost(msol, points, MAX_BASIS_POINTS);
    PortionAtMost(fee, c.liqPool.treasuryCut, MAX_BASIS_POINTS);
    var c' := Pools.LiquidUnstake(c, msol, funds, ready).value;
    assert msol - fee <= c'.msolLeg - c.msolLeg && MsolToSol(c, msol - fee) == Ok(c.solLeg - c'.solLeg);
  }

  /** Less than its worth was paid for some mSOL, and at least that came in. */
  lemma SwapIn(sol: real, msol: real, sol': real, msol': real, sold: real, rate: real)
    requires 0.0 <= rate && sol - sol' <= sold * rate && msol + sold <= msol'
    ensures sol + msol * rate <= sol' + msol' * rate
  {
    ProductOrder(msol + sold, msol', rate);
    assert (msol + sold) * rate == msol * rate + sold * rate;
  }

  /** What taking mSOL in for at most its worth does to the worth. */
  lemma BoughtWorth(c: Chain, sold: nat, c': Chain)
    requires c'.config == c.config && Rate(c') == Rate(c) && c'.solLeg <= c.solLeg
    requires sold <= c'.msolLeg - c.msolLeg && MsolToSol(c, sold) == Ok(c.solLeg - c'.solLeg)
    ensures Worth(c) <= Worth(c')
  {
    hide Rate, MsolToSol;
    WorthRounds(c, sold);
    RateIsQuotient(c);
    SwapIn((c.solLeg - c.config.rentExempt) as real, c.msolLeg as real, (c'.solLeg - c.config.rentExempt) as real,
           c'.msolLeg as real, sold as real, Rate(c));
  }

  lemma LiquidUnstakeWorth(c: Chain, msol: nat, funds: nat, ready: bool)
    requires Inv(c) && Pools.LiquidUnstake(c, msol, funds, ready).Ok?
    ensures var c' := Pools.LiquidUnstake(c, msol, funds, ready).value;
            c'.lpMint == c.lpMint && Worth(c) <= Worth(c')
  {
    hide Inv, Pools.LiquidUnstake, Rate, Worth, MsolToSol;
    var c' := Pools.LiquidUnstake(c, msol, funds, ready).value;
    LiquidUnstakeEffect(c, msol, funds, ready);
    var sold: nat :| sold <= c'.msolLeg - c.msolLeg && MsolToSol(c, sold) == Ok(c.solLeg - c'.solLeg);
    BoughtWorth(c, sold, c');
  }

  /** Shares for d lamports out of a pool worth p rounded and p + f exactly. */
  lemma AddedShares(p: real, f: real, d: real, l: real, s: real)
    requires 0.0 <= p && 0.0 <= f < 1.0 && 0.0 <= d && 0.0 < l && 0.0 <= s && s * p <= d * l
    ensures (p + f) / l - 1.0 / l <= (p + f + d) / (l + s)
  {
    assert p * (l + s) == p * l + s * p && (p + d) * l == p * l + d * l;
    CrossOrder(p, p + d, l, l + s);
    QuotientOrder(p + d, p + f + d, l + s);
    QuotientOrder(p + f - 1.0, p, l);
    assert (p + f - 1.0) / l == (p + f) / l - 1.0 / l;
  }

  /** Lamports added to the pool are worth themselves. */
  lemma ToppedUpWorth(c: Chain, lamports: nat, c': Chain)
    requires c'.config == c.config && Rate(c') == Rate(c)
    requires c'.solLeg == c.solLeg + lamports && c'.msolLeg == c.msolLeg
    ensures Worth(c') == Worth(c) + lamports as real
  {
    hide Rate;
  }

  /** The rounded value of the pool is at most its exact worth, and less than one lamport short of it. */
  lemma PoolValueRounds(c: Chain)
    requires Pools.PoolValue(c).Ok?
    ensures var p := Pools.PoolValue(c).value; p as real <= Worth(c) < p as real + 1.0
  {
    hide Rate;
    WorthRounds(c, c.msolLeg);
  }

  lemma AddLiquidityWorth(c: Chain, lamports: nat, funds: nat)
    requires Inv(c) && 0 < c.lpMint && Pools.AddLiquidity(c, lamports, funds).Ok?
    ensures Pools.PoolValue(c).Ok?
    ensures var c', p := Pools.AddLiquidity(c, lamports, funds).value, Pools.PoolValue(c).value;
            && c.lpMint <= c'.lpMint && (c'.lpMint - c.lpMint) * p <= lamports * c.lpMint
            && Worth(c') == Worth(c) + lamports as real
            && p as real <= Worth(c) < p as real + 1.0
  {
    hide Inv, Worth, Pools.AddLiquidity, Pools.PoolValue;
    AddLiquidityEffect(c, lamports, funds);
    AddLiquidityKeepsShareValue(c, lamports, funds);
    PoolValueRounds(c);
    ToppedUpWorth(c, lamports, Pools.AddLiquidity(c, lamports, funds).value);
  }

  lemma AddLiquidityPerShare(c: Chain, lamports: nat, funds: nat)
    requires Inv(c) && 0 < c.lpMint && Pools.AddLiquidity(c, lamports, funds).Ok?
    ensures var c' := Pools.AddLiquidity(c, lamports, funds).value;
            0 < c'.lpMint && PerShare(c) - 1.0 / c.lpMint as real <= PerShare(c')
  {
    hide Inv, Pools.AddLiquidity, Pools.PoolValue, Worth;
    AddLiquidityWorth(c, lamports, funds);
    var c', p: nat := Pools.AddLiquidity(c, lamports, funds).value, Pools.PoolValue(c).value;
    var shares := c'.lpMint - c.lpMint;
    assert shares as real * p as real == (shares * p) as real;
    assert (lamports * c.lpMint) as real == lamports as real * c.lpMint as real;
    AddedShares(p as real, Worth(c) - p as real, lamports as real, c.lpMint as real, shares as real);
  }

  /** Legs that both keep their part for each share left. */
  lemma RemovedShares(sol: real, msol: real, rate: real, l: real, sol': real, msol': real, l': real)
    requires 0.0 < l && 0.0 < l' && 0.0 <= rate
    requires sol * l' <= sol' * l && msol * l' <= msol' * l
    ensures (sol + msol * rate) / l <= (sol' + msol' * rate) / l'
  {
    ProductOrder(msol * l', msol' * l, rate);
    assert (msol * l') * rate == (msol * rate) * l' && (msol' * l) * rate == (msol' * rate) * l;
    assert (sol + msol * rate) * l' == sol * l' + (msol * rate) * l';
    assert (sol' + msol' * rate) * l == sol' * l + (msol' * rate) * l;
    CrossOrder(sol + msol * rate, sol' + msol' * rate, l, l');
  }

  lemma RemoveLiquidityEffect(c: Chain, tokens: nat, funds: nat)
    requires Inv(c) && 0 < c.lpMint && Pools.RemoveLiquidity(c, tokens, funds).Ok?
    ensures var c' := Pools.RemoveLiquidity(c, tokens, funds).value;
            && Rate(c') == Rate(c) && c'.config == c.config
            && (c'.solLeg - c.config.rentExempt) * c.lpMint >= (c.solLeg - c.config.rentExempt) * c'.lpMint
            && c'.msolLeg * c.lpMint >= c.msolLeg * c'.lpMint
  {
    RemoveLiquidityKeepsLegs(c, tokens, funds);
  }

  lemma RemoveLiquidityPerShare(c: Chain, tokens: nat, funds: nat)
    requires Inv(c) && 0 < c.lpMint && Pools.RemoveLiquidity(c, tokens, funds).Ok?
    requires 0 < Pools.RemoveLiquidity(c, tokens, funds).value.lpMint
    ensures PerShare(c) <= PerShare(Pools.RemoveLiquidity(c, tokens, funds).value)
  {
    hide Inv, Pools.RemoveLiquidity, Rate;
    var c' := Pools.RemoveLiquidity(c, tokens, funds).value;
    RemoveLiquidityEffect(c, tokens, funds);
    RateIsQuotient(c);
    var sol, sol' := c.solLeg - c.config.rentExempt, c'.solLeg - c.config.rentExempt;
    assert (sol * c'.lpMint) as real == sol as real * c'.lpMint as real;
    assert (sol' * c.lpMint) as real == sol' as real * c.lpMint as real;
    assert (c.msolLeg * c'.lpMint) as real == c.msolLeg as real * c'.lpMint as real;
    assert (c'.msolLeg * c.lpMint) as real == c'.msolLeg as real * c.lpMint as real;
    RemovedShares(sol as real, c.msolLeg as real, Rate(c), c.lpMint as real, sol' as real, c'.msolLeg as real,
                  c'.lpMint as real);
  }

  // ---------- every step ----------

  /** What rounding may take off a share in one step: one lamport of the whole pool, when the step is a
      deposit or adds liquidity. */
  function Rounded(c: Chain, a: Action): real {
    if 0 < c.lpMint && (a.Deposit? || a.AddLiquidity?) then 1.0 / c.lpMint as real else 0.0
  }

  ghost predicate SharesKept(c: Chain, a: Action, r: Result<Chain>) {
    r.Ok? && 0 < c.lpMint && 0 < r.value.lpMint ==> PerShare(c) - Rounded(c, a) <= PerShare(r.value)
  }

  lemma OtherUserKeepsLegs(c: Chain, now: Clock, a: Action)
    requires IsUser(a) && !a.Deposit? && !a.WithdrawStakeAccount?
    ensures UserStep(c, now, a).Ok? ==> LegsKept(c, UserStep(c, now, a).value)
  {
  }

  lemma AdminKeepsLegs(c: Chain, a: Action)
    requires IsAdmin(a)
    ensures AdminStep(c, a).Ok? ==> LegsKept(c, AdminStep(c, a).value)
  {
  }

  lemma OutsideKeepsLegs(c: Chain, a: Action)
    requires Outside(a)
    ensures OutsideStep(c, a).Ok? ==> LegsKept(c, OutsideStep(c, a).value)
  {
  }

  lemma UpkeepKeepsLegs(c: Chain, now: Clock, a: Action)
    requires Inv(c) && (IsUpdate(a) || a.MergeStakes?)
    ensures UpkeepStep(c, now, a).Ok? ==> LegsKept(c, UpkeepStep(c, now, a).value)
  {
    match a
    case UpdateActive(stakeIndex, index, key, ready) => UpdateActiveIsSound(c, now, stakeIndex, index, key, ready);
    case UpdateDeactivated(stakeIndex, key, ready) => UpdateDeactivatedIsSound(c, stakeIndex, key, ready);
    case MergeStakes(destIndex, sourceIndex, index, destKey, sourceKey, extra) =>
      MergeStakesIsSound(c, destIndex, sourceIndex, index, destKey, sourceKey, extra);
  }

  lemma DepositKeepsShares(c: Chain, now: Clock, a: Action)
    requires Inv(c) && a.Deposit?
    ensures SharesKept(c, a, UserStep(c, now, a))
  {
    hide Inv, Users.Deposit, Worth;
    if UserStep(c, now, a).Ok? && 0 < c.lpMint {
      DepositWorth(c, a.lamports, a.funds);
      OneLessPerShare(Worth(c), c.lpMint as real, Worth(UserStep(c, now, a).value));
    }
  }

  lemma PoolKeepsShares(c: Chain, a: Action)
    requires Inv(c) && IsPool(a)
    ensures SharesKept(c, a, PoolStep(c, a))
  {
    hide Inv, Worth, Pools.LiquidUnstake, Pools.AddLiquidity, Pools.RemoveLiquidity;
    if PoolStep(c, a).Ok? && 0 < c.lpMint && 0 < PoolStep(c, a).value.lpMint {
      match a
      case LiquidUnstake(msol, funds, ready) =>
        LiquidUnstakeWorth(c, msol, funds, ready);
        QuotientOrder(Worth(c), Worth(PoolStep(c, a).value), c.lpMint as real);
      case AddLiquidity(lamports, funds) => AddLiquidityPerShare(c, lamports, funds);
      case RemoveLiquidity(tokens, funds) => RemoveLiquidityPerShare(c, tokens, funds);
    }
  }

  lemma RebalanceKeepsLegs(c: Chain, now: Clock, a: Action)
    requires Inv(c) && IsRebalance(a)
    ensures RebalanceStep(c, now, a).Ok? ==> LegsKept(c, RebalanceStep(c, now, a).value)
  {
    hide Inv, RebalanceStep;
    RebalanceConserves(c, now, a);
  }

  /** Every other step keeps the legs. */
  lemma OtherKeepsLegs(c: Chain, e: Event)
    requires Inv(c) && !IsPool(e.action) && !e.action.Deposit? && !e.action.WithdrawStakeAccount?
    ensures Step(c, e).Ok? ==> LegsKept(c, Step(c, e).value)
  {
    hide Inv, LegsKept, OutsideStep, UserStep, AdminStep, UpkeepStep;
    var a := e.action;
    if Outside(a) {
      OutsideKeepsLegs(c, a);
    } else if IsUser(a) {
      OtherUserKeepsLegs(c, e.now, a);
    } else if IsRebalance(a) {
      RebalanceKeepsLegs(c, e.now, a);
    } else if IsAdmin(a) {
      AdminKeepsLegs(c, a);
    } else {
      UpkeepKeepsLegs(c, e.now, a);
    }
  }

  lemma MsolInLegIsPriced(c: Chain, a: Action)
    requires Inv(c) && 0 < c.msolLeg
    ensures Priced(c, a)
  {
  }

  lemma OtherKeepsShares(c: Chain, e: Event)
    requires Inv(c) && Step(c, e).Ok? && !MayLower(c, e.action) && !IsPool(e.action) && !e.action.Deposit?
    requires 0 < c.lpMint && 0 < Step(c, e).value.lpMint
    ensures PerShare(c) <= PerShare(Step(c, e).value)
  {
    hide Step, Slashes, PerShare, LegsKept, NoCheaper, Books, TicketTotals, Configured;
    var c' := Step(c, e).value;
    OtherKeepsLegs(c, e);
    StepIsSound(c, e);
    assert Exec(c, e) == c';
    if 0 < c.msolLeg {
      MsolInLegIsPriced(c, e.action);
      StepKeepsPrice(c, e);
    }
    LegsKeptPerShare(c, c');
  }

  /** A step that is no slash and no withdrawal takes at most the rounding off the exact worth of a share. */
  lemma StepKeepsShares(c: Chain, e: Event)
    requires Inv(c) && Step(c, e).Ok? && !MayLower(c, e.action)
    ensures SharesKept(c, e.action, Step(c, e))
  {
    hide Inv, PerShare, OutsideStep, UserStep, PoolStep, RebalanceStep, AdminStep, UpkeepStep, MayLower;
    if e.action.Deposit? {
      DepositKeepsShares(c, e.now, e.action);
    } else if IsPool(e.action) {
      PoolKeepsShares(c, e.action);
    } else if 0 < c.lpMint && 0 < Step(c, e).value.lpMint {
      OtherKeepsShares(c, e);
    }
  }

  // ---------- runs ----------

  /** There are always shares, and no successful step is a slash or a withdrawal. */
  ghost predicate Held(c: Chain, events: seq<Event>) {
    0 < Run(c, events).lpMint &&
    (events == [] ||
     var most, last := events[..|events| - 1], events[|events| - 1];
     Held(c, most) && (Step(Run(c, most), last).Ok? ==> !MayLower(Run(c, most), last.action)))
  }

  /** What rounding may take off a share in the successful steps of a run. */
  function RoundedIn(c: Chain, events: seq<Event>): real {
    if events == [] then 0.0
    else
      var most, last := events[..|events| - 1], events[|events| - 1];
      RoundedIn(c, most) + if Step(Run(c, most), last).Ok? then Rounded(Run(c, most), last.action) else 0.0
  }

  /** Over any such run a share loses at most one lamport of the whole pool, divided by the shares there
      are, for every deposit and every time liquidity is added. */
  lemma {:induction false} RunKeepsShares(c: Chain, events: seq<Event>)
    requires Inv(c) && Held(c, events)
    ensures 0 < c.lpMint && PerShare(c) - RoundedIn(c, events) <= PerShare(Run(c, events))
  {
    hide Inv, PerShare, Step, Rounded, MayLower;
    if events != [] {
      var most, last := events[..|events| - 1], events[|events| - 1];
      RunKeepsShares(c, most);
      RunKeepsInv(c, most);
      if Step(Run(c, most), last).Ok? {
        StepKeepsShares(Run(c, most), last);
      }
    }
  }

  /** The successful deposits and additions of liquidity of a run. */
  function Roundings(c: Chain, events: seq<Event>): nat {
    if events == [] then 0
    else
      var most, last := events[..|events| - 1], events[|events| - 1];
      Roundings(c, most)
      + if Step(Run(c, most), last).Ok? && (last.action.Deposit? || last.action.AddLiquidity?) then 1 else 0
  }

  /** There are never fewer than `least` shares. */
  ghost predicate AtLeast(c: Chain, events: seq<Event>, least: nat) {
    least <= Run(c, events).lpMint && (events == [] || AtLeast(c, events[..|events| - 1], least))
  }

  lemma OneMoreRounding(k: nat, least: real, sum: real, one: real)
    requires 0.0 < least && sum <= k as real / least && one <= 1.0 / least
    ensures sum + one <= (k + 1) as real / least
  {
    assert (k as real + 1.0) / least == k as real / least + 1.0 / least;
  }

  lemma {:induction false} RoundingsAtMost(c: Chain, events: seq<Event>, least: nat)
    requires 0 < least && AtLeast(c, events, least)
    ensures RoundedIn(c, events) <= Roundings(c, events) as real / least as real
  {
    hide Step;
    if events != [] {
      var most, last := events[..|events| - 1], events[|events| - 1];
      RoundingsAtMost(c, most, least);
      var before := Run(c, most);
      assert least <= before.lpMint;
      SmallerDivisor(1.0, before.lpMint as real, least as real);
      OneMoreRounding(Roundings(c, most), least as real, RoundedIn(c, most), 1.0 / before.lpMint as real);
    }
  }

  /** So a run with k of them, and never fewer than `least` shares, takes at most k / least lamports off the
      exact worth of a share. */
  lemma SharesLoseAtMost(c: Chain, events: seq<Event>, least: nat)
    requires Inv(c) && Held(c, events) && 0 < least && AtLeast(c, events, least)
    ensures 0 < c.lpMint && 0 < Run(c, events).lpMint
    ensures PerShare(c) - Roundings(c, events) as real / least as real <= PerShare(Run(c, events))
  {
    RunKeepsShares(c, events);
    RoundingsAtMost(c, events, least);
  }
}
