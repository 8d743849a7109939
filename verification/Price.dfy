/** The price of mSOL is V / S, with V the virtual staked lamports and S the mSOL supply. It does not
    fall in any step that is neither a slash nor a withdrawn stake account, nor over any run of such
    steps. All divisions round down, so this compares the exact fractions. */
module Price {
  import opened Results
  import opened Calc
  import opened Records
  import opened State
  import opened Ledger
  import opened Machine
  import Cranks
  import Users
  import opened CrankBooks
  import opened UpdateBooks
  import opened UserBooks
  import opened Invariants

  /** V'/S' >= V/S, multiplied out. */
  ghost predicate NoCheaper(c: Chain, c': Chain) {
    Virtual(c') * c.msolSupply >= Virtual(c) * c'.msolSupply
  }

  lemma RatioTrans(v: nat, s: nat, v1: nat, s1: nat, v2: nat, s2: nat)
    requires s1 > 0
    requires v * s1 <= v1 * s && v1 * s2 <= v2 * s1
    ensures v * s2 <= v2 * s
  {
    MulMono(v * s1, v1 * s, s2);
    MulMono(v1 * s2, v2 * s1, s);
    MulSwap(v, s2, s1);
    MulSwap(v1, s, s2);
    MulSwap(v2, s1, s);
    CancelFactor(v * s2, v2 * s, s1);
  }

  lemma NoCheaperTrans(c: Chain, c1: Chain, c2: Chain)
    requires NoCheaper(c, c1) && NoCheaper(c1, c2) && c1.msolSupply > 0
    ensures NoCheaper(c, c2)
  {
    RatioTrans(Virtual(c), c.msolSupply, Virtual(c1), c1.msolSupply, Virtual(c2), c2.msolSupply);
  }

  // ---------- arithmetic of minting and burning ----------

  /** Minting shares worth at most what came in. */
  lemma MintKeepsPrice(v: nat, s: nat, incoming: nat, shares: nat, v': nat)
    requires shares * v <= incoming * s && v + incoming <= v'
    ensures v' * s >= v * (s + shares)
  {
    MulMono(v + incoming, v', s);
    assert (v + incoming) * s == v * s + incoming * s;
    assert v * (s + shares) == v * s + shares * v;
  }

  /** Selling part of the shares from the pool at their floored worth, and minting the rest. */
  lemma SwapKeepsPrice(v: nat, s: nat, lamports: nat, bought: nat, paid: nat, swapped: nat)
    requires bought * v <= lamports * s && paid * s <= swapped * v && paid <= lamports && swapped <= bought
    ensures (v + lamports - paid) * s >= v * (s + bought - swapped)
  {
    assert (v + lamports - paid) * s == v * s + lamports * s - paid * s;
    assert v * (s + bought - swapped) == v * s + bought * v - swapped * v;
  }

  /** Burning shares for at most what they are worth. */
  lemma BurnKeepsPrice(v: nat, s: nat, outgoing: nat, shares: nat)
    requires outgoing * s <= shares * v && shares <= s && outgoing <= v
    ensures (v - outgoing) * s >= v * (s - shares)
  {
    assert (v - outgoing) * s == v * s - outgoing * s;
    assert v * (s - shares) == v * s - shares * v;
  }

  /** V grew by what came in and S by shares worth at most that. */
  lemma MintIsNoCheaper(c: Chain, incoming: nat, shares: nat, c': Chain)
    requires shares * Virtual(c) <= incoming * c.msolSupply
    requires Control(c') == Control(c) + incoming && c'.ticketBalance == c.ticketBalance
             && c'.msolSupply == c.msolSupply + shares
    ensures NoCheaper(c, c')
  {
    if Virtual(c) > 0 {
      MintKeepsPrice(Virtual(c), c.msolSupply, incoming, shares, Virtual(c'));
    }
  }

  /** Minted shares never exceed the value while V >= S, and are priced by the floor otherwise. */
  lemma MintedShares(c: Chain, value: nat)
    requires MsolFromLamports(c, value).Ok?
    ensures var shares := MsolFromLamports(c, value).value;
            && (c.msolSupply > 0 ==> shares * Virtual(c) <= value * c.msolSupply)
            && (c.msolSupply <= Virtual(c) ==> shares <= value)
  {
    var v, s, shares := Virtual(c), c.msolSupply, MsolFromLamports(c, value).value;
    if s > 0 && v > 0 {
      FloorBounds(value, s, v);
      if s <= v {
        MulMono(s, v, value);
        CancelFactor(shares, value, v);
      }
    }
  }

  // ---------- deposits ----------

  lemma DepositEffect(c: Chain, lamports: nat, funds: nat)
    requires Users.Deposit(c, lamports, funds).Ok? && c.msolLeg <= c.msolSupply
    ensures Users.DepositOrder(c, lamports).Ok?
    ensures var order, c' := Users.DepositOrder(c, lamports).value, Users.Deposit(c, lamports, funds).value;
            && order.solSwapped <= lamports && order.swapped <= order.bought
            && Control(c') == Control(c) + lamports - order.solSwapped && c'.ticketBalance == c.ticketBalance
            && c'.msolSupply == c.msolSupply + order.bought - order.swapped
  {
    SwapCostsAtMostDeposit(c, lamports);
  }

  /** An order filled from the leg and by minting does not lower the price. */
  lemma OrderIsNoCheaper(c: Chain, lamports: nat, c': Chain)
    requires Users.DepositOrder(c, lamports).Ok? && 0 < c.msolSupply
    requires var order := Users.DepositOrder(c, lamports).value;
             && order.solSwapped <= lamports && order.swapped <= order.bought
             && Control(c') == Control(c) + lamports - order.solSwapped && c'.ticketBalance == c.ticketBalance
             && c'.msolSupply == c.msolSupply + order.bought - order.swapped
    ensures NoCheaper(c, c')
  {
    var order := Users.DepositOrder(c, lamports).value;
    var v, s := Virtual(c), c.msolSupply;
    MintedShares(c, lamports);
    if v > 0 && order.swapped < order.bought {
      if order.swapped > 0 {
        FloorBounds(order.swapped, v, s);
      }
      SwapKeepsPrice(v, s, lamports, order.bought, order.solSwapped, order.swapped);
    }
  }

  lemma DepositKeepsPrice(c: Chain, lamports: nat, funds: nat)
    requires Users.Deposit(c, lamports, funds).Ok? && 0 < c.msolSupply && c.msolLeg <= c.msolSupply
    ensures NoCheaper(c, Users.Deposit(c, lamports, funds).value)
  {
    DepositEffect(c, lamports, funds);
    OrderIsNoCheaper(c, lamports, Users.Deposit(c, lamports, funds).value);
  }

  /** A deposited stake account adds its stake to V and its price in mSOL, at the rate before, to S. */
  lemma DepositStakeAccountEffect(c: Chain, now: Clock, key: Key, account: StakeAccount, activationEpoch: nat,
                                  index: nat)
    requires Users.DepositStakeAccount(c, now, key, account, activationEpoch, index).Ok?
    ensures MsolFromLamports(c, account.stake).Ok?
    ensures var c' := Users.DepositStakeAccount(c, now, key, account, activationEpoch, index).value;
            && Control(c') == Control(c) + account.stake && c'.ticketBalance == c.ticketBalance
               && c'.msolPrice == c.msolPrice
            && c'.msolSupply == c.msolSupply + MsolFromLamports(c, account.stake).value
  {
  }

  lemma DepositStakeAccountKeepsPrice(c: Chain, now: Clock, key: Key, account: StakeAccount, activationEpoch: nat,
                                      index: nat)
    requires Users.DepositStakeAccount(c, now, key, account, activationEpoch, index).Ok? && 0 < c.msolSupply
    ensures NoCheaper(c, Users.DepositStakeAccount(c, now, key, account, activationEpoch, index).value)
  {
    DepositStakeAccountEffect(c, now, key, account, activationEpoch, index);
    MintedShares(c, account.stake);
    MintIsNoCheaper(c, account.stake, MsolFromLamports(c, account.stake).value,
                    Users.DepositStakeAccount(c, now, key, account, activationEpoch, index).value);
  }

  // ---------- tickets ----------

  /** A ticket is worth at most its mSOL, and all of it comes out of V. */
  lemma TicketWorth(c: Chain, msol: nat)
    requires Users.TicketLamports(c, msol).Ok? && 0 < c.msolSupply && msol <= c.msolSupply
    ensures var lamports := Users.TicketLamports(c, msol).value;
            lamports * c.msolSupply <= msol * Virtual(c) && lamports <= Virtual(c)
  {
    var value, lamports := MsolToSol(c, msol).value, Users.TicketLamports(c, msol).value;
    FloorBounds(msol, Virtual(c), c.msolSupply);
    MulMono(lamports, value, c.msolSupply);
    MulMono(msol, c.msolSupply, Virtual(c));
    CancelFactor(lamports, Virtual(c), c.msolSupply);
  }

  lemma OrderUnstakeKeepsPrice(c: Chain, now: Clock, msol: nat, funds: nat, ticketKey: Key, beneficiary: Key)
    requires Users.OrderUnstake(c, now, msol, funds, ticketKey, beneficiary).Ok? && 0 < c.msolSupply
    ensures NoCheaper(c, Users.OrderUnstake(c, now, msol, funds, ticketKey, beneficiary).value)
  {
    TicketWorth(c, msol);
    BurnKeepsPrice(Virtual(c), c.msolSupply, Users.TicketLamports(c, msol).value, msol);
  }

  /** A claim pays a ticket out of the reserve and leaves V and S exactly as they were, even when the
      tickets are worth more than everything under control. */
  lemma ClaimKeepsValue(c: Chain, now: Clock, ticketKey: Key, receiver: Key)
    requires Users.Claim(c, now, ticketKey, receiver).Ok?
    ensures var c' := Users.Claim(c, now, ticketKey, receiver).value;
            && Virtual(c') == Virtual(c) && c'.msolSupply == c.msolSupply
            && Control(c') - c'.ticketBalance == Control(c) - c.ticketBalance
  {
  }

  // ---------- updates ----------

  /** Lamports came in, and shares were minted for at most their value. */
  ghost predicate Earns(c: Chain, lamports: nat, c': Chain) {
    && c'.config == c.config
    && Control(c') == Control(c) + lamports && c'.ticketBalance == c.ticketBalance
    && c.msolSupply <= c'.msolSupply
    && (c.msolSupply > 0 ==> NoCheaper(c, c'))
    && (c.ticketBalance <= Control(c) && c.msolSupply <= Virtual(c) ==> c'.msolSupply <= Virtual(c'))
  }

  lemma EarnsTrans(c: Chain, lamports: nat, c1: Chain, more: nat, c2: Chain)
    requires Earns(c, lamports, c1) && Earns(c1, more, c2)
    ensures Earns(c, lamports + more, c2)
  {
    if c.msolSupply > 0 {
      NoCheaperTrans(c, c1, c2);
    }
  }

  lemma EarnsWithRecord(c: Chain, lamports: nat, c': Chain, index: nat, record: StakeRecord)
    requires Earns(c, lamports, c') && index < |c'.stakeSystem.list|
    ensures Earns(c, lamports, WithRecord(c', index, record))
  {
  }

  lemma ProtocolFeesMinted(c: Chain, lamports: nat, ready: bool)
    requires c.config.rewardFee <= MAX_BASIS_POINTS && Cranks.MintProtocolFees(c, lamports, ready).Ok?
    ensures var c' := Cranks.MintProtocolFees(c, lamports, ready).value;
            && c' == c.(msolMint := c'.msolMint, msolSupply := c'.msolSupply) && c.msolSupply <= c'.msolSupply
            && (c.msolSupply > 0 ==> (c'.msolSupply - c.msolSupply) * Virtual(c) <= lamports * c.msolSupply)
            && (c.msolSupply <= Virtual(c) ==> c'.msolSupply - c.msolSupply <= lamports)
  {
    if ready {
      var fee := FeeApply(c.config.rewardFee, lamports);
      PortionAtMost(lamports, c.config.rewardFee, MAX_BASIS_POINTS);
      MintedShares(c, fee);
      MulMono(fee, lamports, c.msolSupply);
    }
  }

  /** Fees priced before the lamports are counted. */
  lemma FeesThenLamports(c: Chain, lamports: nat, ready: bool, c': Chain)
    requires c.config.rewardFee <= MAX_BASIS_POINTS && Cranks.MintProtocolFees(c, lamports, ready).Ok?
    requires c'.config == c.config && Control(c') == Control(c) + lamports && c'.ticketBalance == c.ticketBalance
    requires c'.msolSupply == Cranks.MintProtocolFees(c, lamports, ready).value.msolSupply
    ensures Earns(c, lamports, c')
  {
    ProtocolFeesMinted(c, lamports, ready);
    if c.msolSupply > 0 {
      MintIsNoCheaper(c, lamports, c'.msolSupply - c.msolSupply, c');
    }
  }

  /** Fees priced after the lamports are counted, so at a higher price. */
  lemma LamportsThenFees(c: Chain, lamports: nat, ready: bool, c1: Chain)
    requires c.config.rewardFee <= MAX_BASIS_POINTS
    requires c1.config == c.config && Control(c1) == Control(c) + lamports && c1.ticketBalance == c.ticketBalance
    requires c1.msolSupply == c.msolSupply && Cranks.MintProtocolFees(c1, lamports, ready).Ok?
    ensures Earns(c, lamports, Cranks.MintProtocolFees(c1, lamports, ready).value)
  {
    ProtocolFeesMinted(c1, lamports, ready);
    MintedLaterEarns(c, lamports, c1, Cranks.MintProtocolFees(c1, lamports, ready).value);
  }

  lemma MintedLaterEarns(c: Chain, lamports: nat, c1: Chain, c': Chain)
    requires c1.config == c.config && Control(c1) == Control(c) + lamports && c1.ticketBalance == c.ticketBalance
    requires c1.msolSupply == c.msolSupply <= c'.msolSupply
    requires c' == c1.(msolMint := c'.msolMint, msolSupply := c'.msolSupply)
    requires c.msolSupply > 0 ==> (c'.msolSupply - c.msolSupply) * Virtual(c1) <= lamports * c.msolSupply
    requires c.msolSupply <= Virtual(c1) ==> c'.msolSupply - c.msolSupply <= lamports
    ensures Earns(c, lamports, c')
  {
    if c.msolSupply > 0 && Virtual(c) > 0 {
      MintLaterKeepsPrice(Virtual(c), Virtual(c1), c.msolSupply, lamports, c'.msolSupply - c.msolSupply);
    }
  }

  lemma MintLaterKeepsPrice(v: nat, v': nat, s: nat, incoming: nat, shares: nat)
    requires shares * v' <= incoming * s && v' == v + incoming
    ensures v' * s >= v * (s + shares)
  {
    MulMono(v, v', shares);
    MintKeepsPrice(v, s, incoming, shares, v');
  }

  lemma TakeExtraEarns(c: Chain, key: Key, extra: nat, ready: bool)
    requires c.config.rewardFee <= MAX_BASIS_POINTS && Cranks.TakeExtra(c, key, extra, ready).Ok?
    ensures Earns(c, extra, Cranks.TakeExtra(c, key, extra, ready).value)
  {
    if extra > 0 {
      LamportsThenFees(c, extra, ready, Cranks.WithdrawToReserve(c, key, extra).value);
    }
  }

  lemma ObserveEarns(c: Chain, index: nat, validator: ValidatorRecord, before: nat, delegated: nat, ready: bool)
    requires c.config.rewardFee <= MAX_BASIS_POINTS && index < |c.validatorSystem.list| && before <= delegated
    requires Cranks.ObserveDelegation(c, index, validator, before, delegated, ready).Ok?
    ensures Earns(c, delegated - before, Cranks.ObserveDelegation(c, index, validator, before, delegated, ready).value)
  {
    FeesThenLamports(c, delegated - before, ready,
                     Cranks.ObserveDelegation(c, index, validator, before, delegated, ready).value);
  }

  /** An update of an active account without a slash: extra lamports and rewards come in. */
  lemma BookActiveEarns(c: Chain, now: Clock, stakeIndex: nat, stake: StakeRecord, index: nat,
                        validator: ValidatorRecord,
                        account: StakeAccount, ready: bool)
    requires c.config.rewardFee <= MAX_BASIS_POINTS && stakeIndex < |c.stakeSystem.list|
             && index < |c.validatorSystem.list|
    requires Cranks.BookActive(c, now, stakeIndex, stake, index, validator, account, ready).Ok?
    requires stake.lamports <= account.stake
    ensures account.rent <= account.lamports
    ensures Earns(c, SatSub(account.lamports - account.rent, account.stake) + (account.stake - stake.lamports),
                  Cranks.BookActive(c, now, stakeIndex, stake, index, validator, account, ready).value)
  {
    hide Earns, Cranks.TakeExtra;
    var extra, rewards := SatSub(account.lamports - account.rent, account.stake), account.stake - stake.lamports;
    TakeExtraEarns(c, stake.account, extra, ready);
    TakeExtraIsFunds(c, stake.account, extra, ready);
    var c1 := Cranks.TakeExtra(c, stake.account, extra, ready).value;
    var c2 := Cranks.ObserveDelegation(c1, index, validator, stake.lamports, account.stake, ready).value;
    ObserveEarns(c1, index, validator, stake.lamports, account.stake, ready);
    EarnsTrans(c, extra, c1, rewards, c2);
    EarnsWithRecord(c, extra + rewards, c2, stakeIndex, stake.(epoch := now.epoch, lamports := account.stake));
  }

  lemma DrainEffect(c: Chain, key: Key, account: StakeAccount)
    requires account.rent <= account.lamports && Cranks.Drain(c, key, account).Ok?
    ensures var c' := Cranks.Drain(c, key, account).value;
            c' == c.(stakes := c'.stakes, reserve := c'.reserve,
                     available := c.available + account.lamports - account.rent)
  {
  }

  lemma CloseCooledEffect(c: Chain, stakeIndex: nat, stake: StakeRecord, account: StakeAccount)
    requires stakeIndex < |c.stakeSystem.list| && Cranks.CloseCooled(c, stakeIndex, stake, account).Ok?
    requires stake.lamports + account.rent <= account.lamports
    ensures var c' := Cranks.CloseCooled(c, stakeIndex, stake, account).value;
            && c'.msolSupply == c.msolSupply && c'.config == c.config && c'.ticketBalance == c.ticketBalance
            && Control(c') == Control(c) + (account.lamports - account.rent - stake.lamports)
  {
    hide Cranks.Drain;
    DrainEffect(c, stake.account, account);
  }

  lemma BookDeactivatedEffect(c: Chain, stakeIndex: nat, stake: StakeRecord, account: StakeAccount, ready: bool)
    requires stakeIndex < |c.stakeSystem.list| && Cranks.BookDeactivated(c, stakeIndex, stake, account, ready).Ok?
    requires stake.lamports + account.rent <= account.lamports
    ensures var earned := account.lamports - account.rent - stake.lamports;
            var c' := Cranks.BookDeactivated(c, stakeIndex, stake, account, ready).value;
            var paid := Cranks.MintProtocolFees(c, earned, ready);
            && paid.Ok? && c'.msolSupply == paid.value.msolSupply
            && c'.config == c.config && Control(c') == Control(c) + earned && c'.ticketBalance == c.ticketBalance
  {
    var c1 := Cranks.MintProtocolFees(c, account.lamports - account.rent - stake.lamports, ready);
    CooledFeesIsFunds(c, stake.lamports, account.lamports - account.rent, ready);
    CloseCooledEffect(c1.value, stakeIndex, stake, account);
  }

  /** An update of a cooled-down account without a slash: what it earned comes in. */
  lemma BookDeactivatedEarns(c: Chain, stakeIndex: nat, stake: StakeRecord, account: StakeAccount, ready: bool)
    requires c.config.rewardFee <= MAX_BASIS_POINTS && stakeIndex < |c.stakeSystem.list|
    requires Cranks.BookDeactivated(c, stakeIndex, stake, account, ready).Ok?
    requires stake.lamports + account.rent <= account.lamports
    ensures Earns(c, account.lamports - account.rent - stake.lamports,
                  Cranks.BookDeactivated(c, stakeIndex, stake, account, ready).value)
  {
    BookDeactivatedEffect(c, stakeIndex, stake, account, ready);
    FeesThenLamports(c, account.lamports - account.rent - stake.lamports, ready,
                     Cranks.BookDeactivated(c, stakeIndex, stake, account, ready).value);
  }

  // ---------- every step ----------

  /** An update that finds less than was recorded. */
  predicate Slashes(c: Chain, a: Action) {
    match a
    case UpdateActive(stakeIndex, _, key, _) =>
      stakeIndex < |c.stakeSystem.list| && key in c.stakes
        && c.stakes[key].stake < c.stakeSystem.list[stakeIndex].lamports
    case UpdateDeactivated(stakeIndex, key, _) =>
      stakeIndex < |c.stakeSystem.list| && key in c.stakes
      && c.stakes[key].lamports < c.stakes[key].rent + c.stakeSystem.list[stakeIndex].lamports
    case _ => false
  }

  /** What an update without a slash brings in, on top of the resynchronised balances. */
  lemma UpdateActiveEarns(c: Chain, now: Clock, stakeIndex: nat, index: nat, key: Key, ready: bool)
    requires c.config.rewardFee <= MAX_BASIS_POINTS && Cranks.UpdateActive(c, now, stakeIndex, index, key, ready).Ok?
    requires !Slashes(c, UpdateActive(stakeIndex, index, key, ready))
    ensures exists earned: nat :: Earns(Cranks.Begin(c), earned,
                                        Cranks.UpdateActive(c, now, stakeIndex, index, key, ready).value)
  {
    var c1, c' := Cranks.Begin(c), Cranks.UpdateActive(c, now, stakeIndex, index, key, ready).value;
    var stake, account, validator := c.stakeSystem.list[stakeIndex], c.stakes[key], c.validatorSystem.list[index];
    BookActiveEarns(c1, now, stakeIndex, stake, index, validator, account, ready);
    var earned := SatSub(account.lamports - account.rent, account.stake) + (account.stake - stake.lamports);
    var c2 := Cranks.BookActive(c1, now, stakeIndex, stake, index, validator, account, ready).value;
    assert c' == c2.(msolPrice := c'.msolPrice);
    assert Earns(c1, earned, c');
  }

  lemma UpdateDeactivatedEarns(c: Chain, stakeIndex: nat, key: Key, ready: bool)
    requires c.config.rewardFee <= MAX_BASIS_POINTS && Cranks.UpdateDeactivated(c, stakeIndex, key, ready).Ok?
    requires !Slashes(c, UpdateDeactivated(stakeIndex, key, ready))
    ensures exists earned: nat :: Earns(Cranks.Begin(c), earned,
                                        Cranks.UpdateDeactivated(c, stakeIndex, key, ready).value)
  {
    var c1, c' := Cranks.Begin(c), Cranks.UpdateDeactivated(c, stakeIndex, key, ready).value;
    var stake, account := c.stakeSystem.list[stakeIndex], c.stakes[key];
    BookDeactivatedEarns(c1, stakeIndex, stake, account, ready);
    var earned := account.lamports - account.rent - stake.lamports;
    var c2 := Cranks.BookDeactivated(c1, stakeIndex, stake, account, ready).value;
    assert c' == c2.(msolPrice := c'.msolPrice);
    assert Earns(c1, earned, c');
  }

  /** Begin never lowers the virtual balance and never raises the supply. */
  lemma BeginNeverLowers(c: Chain)
    requires Backed(c)
    ensures var c1 := Cranks.Begin(c);
            c1.available >= c.available && c1.msolSupply <= c.msolSupply && Virtual(c1) >= Virtual(c)
              && NoCheaper(c, c1)
            && c1.stakingCap == c.stakingCap
  {
    var c1 := Cranks.Begin(c);
    MulMono(Virtual(c), Virtual(c1), c.msolSupply);
    MulMono(c1.msolSupply, c.msolSupply, Virtual(c));
  }

  lemma UpdateKeepsPrice(c: Chain, earned: nat, c': Chain)
    requires Backed(c) && 0 < c.msolMint && Earns(Cranks.Begin(c), earned, c')
    ensures NoCheaper(c, c')
  {
    BeginNeverLowers(c);
    NoCheaperTrans(c, Cranks.Begin(c), c');
  }

  /** Neither the total under control, the tickets, the supply nor the stored price change. */
  ghost predicate SameValue(c: Chain, c': Chain) {
    && Control(c') == Control(c) && c'.ticketBalance == c.ticketBalance
    && c'.msolSupply == c.msolSupply && c'.msolPrice == c.msolPrice
  }

  /** Pool, admin and outside steps do not touch what the price is made of. */
  lemma PoolStepKeepsValue(c: Chain, a: Action)
    requires IsPool(a)
    ensures PoolStep(c, a).Ok? ==> SameValue(c, PoolStep(c, a).value)
  {
  }

  lemma AdminStepKeepsValue(c: Chain, a: Action)
    requires IsAdmin(a)
    ensures AdminStep(c, a).Ok? ==> SameValue(c, AdminStep(c, a).value)
  {
  }

  lemma OutsideStepKeepsValue(c: Chain, a: Action)
    requires Outside(a)
    ensures OutsideStep(c, a).Ok? ==> SameValue(c, OutsideStep(c, a).value)
  {
  }

  /** The steps whose effect on the price is bounded elsewhere. */
  predicate MayLower(c: Chain, a: Action) {
    Slashes(c, a) || a.WithdrawStakeAccount?
  }

  /** There is mSOL to price; an update looks at the real supply, every other step at the virtual one. */
  predicate Priced(c: Chain, a: Action) {
    0 < c.msolSupply && (IsUpdate(a) ==> 0 < c.msolMint)
  }

  lemma UserStepKeepsPrice(c: Chain, now: Clock, a: Action)
    requires Inv(c) && 0 < c.msolSupply && IsUser(a) && !a.WithdrawStakeAccount? && UserStep(c, now, a).Ok?
    ensures NoCheaper(c, UserStep(c, now, a).value)
  {
    match a
    case Deposit(lamports, funds) => DepositKeepsPrice(c, lamports, funds);
    case DepositStakeAccount(key, account, activationEpoch, index) =>
      DepositStakeAccountKeepsPrice(c, now, key, account, activationEpoch, index);
    case OrderUnstake(msol, funds, ticketKey, beneficiary) =>
      OrderUnstakeKeepsPrice(c, now, msol, funds, ticketKey, beneficiary);
    case Claim(ticketKey, receiver) => ClaimKeepsValue(c, now, ticketKey, receiver);
  }

  lemma UpdateStepKeepsPrice(c: Chain, now: Clock, a: Action)
    requires Inv(c) && 0 < c.msolMint && IsUpdate(a) && !Slashes(c, a) && UpkeepStep(c, now, a).Ok?
    ensures NoCheaper(c, UpkeepStep(c, now, a).value)
  {
    var c' := UpkeepStep(c, now, a).value;
    match a {
      case UpdateActive(stakeIndex, index, key, ready) => UpdateActiveEarns(c, now, stakeIndex, index, key, ready);
      case UpdateDeactivated(stakeIndex, key, ready) => UpdateDeactivatedEarns(c, stakeIndex, key, ready);
    }
    var earned: nat :| Earns(Cranks.Begin(c), earned, c');
    UpdateKeepsPrice(c, earned, c');
  }

  lemma MergeStepKeepsPrice(c: Chain, now: Clock, a: Action)
    requires Inv(c) && a.MergeStakes? && UpkeepStep(c, now, a).Ok?
    ensures NoCheaper(c, UpkeepStep(c, now, a).value)
  {
    MergeStakesIsSound(c, a.destIndex, a.sourceIndex, a.index, a.destKey, a.sourceKey, a.extra);
    MulMono(Virtual(c), Virtual(UpkeepStep(c, now, a).value), c.msolSupply);
  }

  /** While mSOL exists, the price does not fall in any step other than a slash or a withdrawal. */
  lemma StepKeepsPrice(c: Chain, e: Event)
    requires Inv(c) && Priced(c, e.action) && !MayLower(c, e.action) && Step(c, e).Ok?
    ensures NoCheaper(c, Step(c, e).value)
  {
    var a := e.action;
    if Outside(a) {
      OutsideStepKeepsValue(c, a);
    } else if IsUser(a) {
      UserStepKeepsPrice(c, e.now, a);
    } else if IsPool(a) {
      PoolStepKeepsValue(c, a);
    } else if IsRebalance(a) {
      RebalanceConserves(c, e.now, a);
    } else if IsAdmin(a) {
      AdminStepKeepsValue(c, a);
    } else if IsUpdate(a) {
      UpdateStepKeepsPrice(c, e.now, a);
    } else {
      MergeStepKeepsPrice(c, e.now, a);
    }
  }

  // ---------- runs ----------

  /** A run in which every successful step has mSOL to price and none is a slash or a withdrawal. */
  ghost predicate Calm(c: Chain, events: seq<Event>) {
    events == [] ||
    var most, last := events[..|events| - 1], events[|events| - 1];
    var before := Run(c, most);
    Calm(c, most) && (Step(before, last).Ok? ==> Priced(before, last.action) && !MayLower(before, last.action))
  }

  /** Over a whole calm run, failed instructions included, the price does not fall. */
  lemma {:induction false} RunKeepsPrice(c: Chain, events: seq<Event>)
    requires Inv(c) && Calm(c, events)
    ensures NoCheaper(c, Run(c, events))
  {
    if events != [] {
      var most, last := events[..|events| - 1], events[|events| - 1];
      var before := Run(c, most);
      RunKeepsPrice(c, most);
      RunKeepsInv(c, most);
      if Step(before, last).Ok? {
        StepKeepsPrice(before, last);
        NoCheaperTrans(c, before, Run(c, events));
      }
    }
  }
}
