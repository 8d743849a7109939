/** An update when holders have burned all mSOL: the supply restarts with the update's own fees, so the
    price can fall. This says exactly when it does not, in terms known before the call. */
module Restart {
  import opened Results
  import opened Calc
  import opened Records
  import opened State
  import opened Ledger
  import opened Machine
  import Cranks
  import opened Price

  /** The virtual staked lamports once the balances are aligned and so much came in. */
  function ValueWith(c: Chain, earned: nat): nat {
    SatSub(Control(Cranks.Begin(c)) + earned, c.ticketBalance)
  }

  function Fee(c: Chain, lamports: nat): nat {
    FeeApply(c.config.rewardFee, lamports)
  }

  /** The fees of an update of an active account: those on extra lamports start the supply at a lamport a
      share, and those on rewards are priced in it. */
  function RestartedSupply(c: Chain, extra: nat, rewards: nat, ready: bool): Result<nat> {
    if !ready then Ok(0)
    else
      var second :- SharesFromValue(Fee(c, rewards), ValueWith(c, extra), Fee(c, extra));
      Ok(Fee(c, extra) + second)
  }

  lemma FeesOnEmptySupply(c: Chain, lamports: nat, ready: bool)
    requires c.msolSupply == 0 && Cranks.MintProtocolFees(c, lamports, ready).Ok?
    ensures Cranks.MintProtocolFees(c, lamports, ready).value.msolSupply == if ready then Fee(c, lamports) else 0
  {
  }

  lemma ExtraRestarts(c: Chain, key: Key, extra: nat, ready: bool)
    requires c.msolMint == 0 && Cranks.TakeExtra(Cranks.Begin(c), key, extra, ready).Ok?
    ensures var c1 := Cranks.TakeExtra(Cranks.Begin(c), key, extra, ready).value;
            && c1.config == c.config && c1.ticketBalance == c.ticketBalance
            && c1.msolSupply == (if ready then Fee(c, extra) else 0) && Virtual(c1) == ValueWith(c, extra)
            && Control(c1) == Control(Cranks.Begin(c)) + extra
  {
    if extra > 0 {
      FeesOnEmptySupply(Cranks.WithdrawToReserve(Cranks.Begin(c), key, extra).value, extra, ready);
    }
  }

  lemma RewardsAfterRestart(c: Chain, index: nat, validator: ValidatorRecord, before: nat, delegated: nat, ready: bool)
    requires index < |c.validatorSystem.list| && before <= delegated
    requires Cranks.ObserveDelegation(c, index, validator, before, delegated, ready).Ok?
    ensures var c' := Cranks.ObserveDelegation(c, index, validator, before, delegated, ready).value;
            var shares := SharesFromValue(Fee(c, delegated - before), Virtual(c), c.msolSupply);
            && c'.ticketBalance == c.ticketBalance && Control(c') == Control(c) + (delegated - before)
            && (ready ==> shares.Ok? && c'.msolSupply == c.msolSupply + shares.value)
            && (!ready ==> c'.msolSupply == c.msolSupply)
  {
  }

  lemma RewardsBooked(c: Chain, now: Clock, stakeIndex: nat, stake: StakeRecord, index: nat, validator: ValidatorRecord,
                      delegated: nat, ready: bool, c': Chain)
    requires stakeIndex < |c.stakeSystem.list| && index < |c.validatorSystem.list| && stake.lamports <= delegated
    requires var r := Cranks.ObserveDelegation(c, index, validator, stake.lamports, delegated, ready);
             r.Ok? && stakeIndex < |r.value.stakeSystem.list|
             && c' == WithRecord(r.value, stakeIndex, stake.(epoch := now.epoch, lamports := delegated))
    ensures var shares := SharesFromValue(Fee(c, delegated - stake.lamports), Virtual(c), c.msolSupply);
            && c'.ticketBalance == c.ticketBalance && Control(c') == Control(c) + (delegated - stake.lamports)
            && (ready ==> shares.Ok? && c'.msolSupply == c.msolSupply + shares.value)
            && (!ready ==> c'.msolSupply == c.msolSupply)
  {
    RewardsAfterRestart(c, index, validator, stake.lamports, delegated, ready);
  }

  lemma RestartedInTwo(c: Chain, extra: nat, rewards: nat, ready: bool, c1: Chain, c2: Chain)
    requires c1.ticketBalance == c.ticketBalance && Control(c1) == Control(Cranks.Begin(c)) + extra
    requires c1.msolSupply == (if ready then Fee(c, extra) else 0) && Virtual(c1) == ValueWith(c, extra)
    requires c2.ticketBalance == c1.ticketBalance && Control(c2) == Control(c1) + rewards
    requires var shares := SharesFromValue(Fee(c1, rewards), Virtual(c1), c1.msolSupply);
             && c1.config == c.config
             && if ready then shares.Ok? && c2.msolSupply == c1.msolSupply + shares.value
                else c2.msolSupply == c1.msolSupply
    ensures RestartedSupply(c, extra, rewards, ready) == Ok(c2.msolSupply)
    ensures Virtual(c2) == ValueWith(c, extra + rewards)
  {
  }

  lemma ActiveRestarts(c: Chain, now: Clock, stakeIndex: nat, stake: StakeRecord, index: nat,
                       validator: ValidatorRecord,
                       account: StakeAccount, ready: bool)
    requires c.msolMint == 0 && stakeIndex < |c.stakeSystem.list| && index < |c.validatorSystem.list|
    requires Cranks.BookActive(Cranks.Begin(c), now, stakeIndex, stake, index, validator, account, ready).Ok?
    requires stake.lamports <= account.stake
    ensures account.rent <= account.lamports
    ensures var c' := Cranks.BookActive(Cranks.Begin(c), now, stakeIndex, stake, index, validator, account,
                                        ready).value;
            var extra, rewards := SatSub(account.lamports - account.rent, account.stake),
              account.stake - stake.lamports;
            && RestartedSupply(c, extra, rewards, ready) == Ok(c'.msolSupply)
            && Virtual(c') == ValueWith(c, extra + rewards)
  {
    var c' := Cranks.BookActive(Cranks.Begin(c), now, stakeIndex, stake, index, validator, account, ready).value;
    var extra, rewards := SatSub(account.lamports - account.rent, account.stake), account.stake - stake.lamports;
    var c1 := Cranks.TakeExtra(Cranks.Begin(c), stake.account, extra, ready).value;
    ExtraRestarts(c, stake.account, extra, ready);
    RewardsBooked(c1, now, stakeIndex, stake, index, validator, account.stake, ready, c');
    RestartedInTwo(c, extra, rewards, ready, c1, c');
  }

  lemma UpdateActiveRestarts(c: Chain, now: Clock, stakeIndex: nat, index: nat, key: Key, ready: bool)
    requires c.msolMint == 0 && Cranks.UpdateActive(c, now, stakeIndex, index, key, ready).Ok?
    requires !Slashes(c, UpdateActive(stakeIndex, index, key, ready))
    ensures stakeIndex < |c.stakeSystem.list| && key in c.stakes && c.stakes[key].rent <= c.stakes[key].lamports
    ensures var stake, account := c.stakeSystem.list[stakeIndex], c.stakes[key];
            var c' := Cranks.UpdateActive(c, now, stakeIndex, index, key, ready).value;
            var extra, rewards := SatSub(account.lamports - account.rent, account.stake),
              account.stake - stake.lamports;
            && 0 <= rewards && RestartedSupply(c, extra, rewards, ready) == Ok(c'.msolSupply)
            && Virtual(c') == ValueWith(c, extra + rewards)
  {
    hide RestartedSupply, ValueWith, Cranks.BookActive;
    ActiveRestarts(c, now, stakeIndex, c.stakeSystem.list[stakeIndex], index, c.validatorSystem.list[index],
                   c.stakes[key], ready);
  }

  /** An update of an active account without a slash keeps the price exactly when there is real mSOL, or
      the restarted supply is worth no less a share. */
  lemma UpdateActiveKeepsPriceExactly(c: Chain, now: Clock, stakeIndex: nat, index: nat, key: Key, ready: bool)
    requires Inv(c) && 0 < c.msolSupply && Cranks.UpdateActive(c, now, stakeIndex, index, key, ready).Ok?
    requires !Slashes(c, UpdateActive(stakeIndex, index, key, ready))
    ensures stakeIndex < |c.stakeSystem.list| && key in c.stakes && c.stakes[key].rent <= c.stakes[key].lamports
    ensures var stake, account := c.stakeSystem.list[stakeIndex], c.stakes[key];
            var extra, rewards := SatSub(account.lamports - account.rent, account.stake),
              account.stake - stake.lamports;
            NoCheaper(c, Cranks.UpdateActive(c, now, stakeIndex, index, key, ready).value) <==>
              var supply := RestartedSupply(c, extra, rewards, ready);
              0 < c.msolMint ||
              (supply.Ok? && ValueWith(c, extra + rewards) * c.msolSupply >= Virtual(c) * supply.value)
  {
    var c' := Cranks.UpdateActive(c, now, stakeIndex, index, key, ready).value;
    if 0 < c.msolMint {
      UpdateActiveEarns(c, now, stakeIndex, index, key, ready);
      var earned: nat :| Earns(Cranks.Begin(c), earned, c');
      UpdateKeepsPrice(c, earned, c');
    } else {
      UpdateActiveRestarts(c, now, stakeIndex, index, key, ready);
    }
  }

  lemma DeactivatedRestarts(c: Chain, stakeIndex: nat, stake: StakeRecord, account: StakeAccount, ready: bool)
    requires c.msolMint == 0 && stakeIndex < |c.stakeSystem.list|
    requires Cranks.BookDeactivated(Cranks.Begin(c), stakeIndex, stake, account, ready).Ok?
    requires stake.lamports + account.rent <= account.lamports
    ensures var c' := Cranks.BookDeactivated(Cranks.Begin(c), stakeIndex, stake, account, ready).value;
            var earned := account.lamports - account.rent - stake.lamports;
            && c'.msolSupply == (if ready then Fee(c, earned) else 0)
            && Virtual(c') == ValueWith(c, earned)
  {
    BookDeactivatedEffect(Cranks.Begin(c), stakeIndex, stake, account, ready);
    FeesOnEmptySupply(Cranks.Begin(c), account.lamports - account.rent - stake.lamports, ready);
  }

  lemma UpdateDeactivatedRestarts(c: Chain, stakeIndex: nat, key: Key, ready: bool)
    requires c.msolMint == 0 && Cranks.UpdateDeactivated(c, stakeIndex, key, ready).Ok?
    requires !Slashes(c, UpdateDeactivated(stakeIndex, key, ready))
    ensures stakeIndex < |c.stakeSystem.list| && key in c.stakes
    ensures var stake, account := c.stakeSystem.list[stakeIndex], c.stakes[key];
            var c' := Cranks.UpdateDeactivated(c, stakeIndex, key, ready).value;
            stake.lamports + account.rent <= account.lamports &&
            var earned := account.lamports - account.rent - stake.lamports;
            && c'.msolSupply == (if ready then Fee(c, earned) else 0)
            && Virtual(c') == ValueWith(c, earned)
  {
    hide Fee, ValueWith, Cranks.BookDeactivated;
    DeactivatedRestarts(c, stakeIndex, c.stakeSystem.list[stakeIndex], c.stakes[key], ready);
  }

  /** The same for a cooled-down account, whose fees are minted at once. */
  lemma UpdateDeactivatedKeepsPriceExactly(c: Chain, stakeIndex: nat, key: Key, ready: bool)
    requires Inv(c) && 0 < c.msolSupply && Cranks.UpdateDeactivated(c, stakeIndex, key, ready).Ok?
    requires !Slashes(c, UpdateDeactivated(stakeIndex, key, ready))
    ensures stakeIndex < |c.stakeSystem.list| && key in c.stakes
    ensures var stake, account := c.stakeSystem.list[stakeIndex], c.stakes[key];
            stake.lamports + account.rent <= account.lamports &&
            var earned := account.lamports - account.rent - stake.lamports;
            NoCheaper(c, Cranks.UpdateDeactivated(c, stakeIndex, key, ready).value) <==>
              var minted := if ready then Fee(c, earned) else 0;
              0 < c.msolMint || ValueWith(c, earned) * c.msolSupply >= Virtual(c) * minted
  {
    var c' := Cranks.UpdateDeactivated(c, stakeIndex, key, ready).value;
    if 0 < c.msolMint {
      UpdateDeactivatedEarns(c, stakeIndex, key, ready);
      var earned: nat :| Earns(Cranks.Begin(c), earned, c');
      UpdateKeepsPrice(c, earned, c');
    } else {
      UpdateDeactivatedRestarts(c, stakeIndex, key, ready);
    }
  }

  /** No more shares than before, for at least as much value. */
  lemma FewSharesKeepPrice(c: Chain, earned: nat, supply: nat)
    requires Backed(c) && supply <= c.msolSupply
    ensures ValueWith(c, earned) * c.msolSupply >= Virtual(c) * supply
  {
    BeginNeverLowers(c);
    MulMono(Virtual(c), ValueWith(c, earned), c.msolSupply);
    MulMono(supply, c.msolSupply, Virtual(c));
    assert supply * Virtual(c) == Virtual(c) * supply && c.msolSupply * Virtual(c) == Virtual(c) * c.msolSupply;
  }

  /** What a caller can go by: whether mSOL is left or not, an update without a slash keeps the price when
      the fees it would restart the supply with are no more than the supply on record. */
  lemma FewFeesKeepPrice(c: Chain, now: Clock, stakeIndex: nat, index: nat, key: Key, ready: bool)
    requires Inv(c) && 0 < c.msolSupply && Cranks.UpdateActive(c, now, stakeIndex, index, key, ready).Ok?
    requires !Slashes(c, UpdateActive(stakeIndex, index, key, ready))
    requires var stake, account := c.stakeSystem.list[stakeIndex], c.stakes[key];
             var supply := RestartedSupply(c, SatSub(account.lamports - account.rent, account.stake),
                                           account.stake - stake.lamports, ready);
             0 < c.msolMint || (supply.Ok? && supply.value <= c.msolSupply)
    ensures NoCheaper(c, Cranks.UpdateActive(c, now, stakeIndex, index, key, ready).value)
  {
    hide Books, TicketTotals, Configured, Cranks.UpdateActive, RestartedSupply, Virtual;
    UpdateActiveKeepsPriceExactly(c, now, stakeIndex, index, key, ready);
    var stake, account := c.stakeSystem.list[stakeIndex], c.stakes[key];
    var extra, rewards := SatSub(account.lamports - account.rent, account.stake), account.stake - stake.lamports;
    if c.msolMint == 0 {
      FewSharesKeepPrice(c, extra + rewards, RestartedSupply(c, extra, rewards, ready).value);
    }
  }

  lemma FewSharesAreNoCheaper(c: Chain, earned: nat, c': Chain)
    requires Backed(c) && c'.msolSupply <= c.msolSupply && Virtual(c') == ValueWith(c, earned)
    ensures NoCheaper(c, c')
  {
    FewSharesKeepPrice(c, earned, c'.msolSupply);
  }

  /** What a cooled-down account has over its record. */
  function CooledEarnings(c: Chain, stakeIndex: nat, key: Key): nat
    requires stakeIndex < |c.stakeSystem.list| && key in c.stakes
  {
    SatSub(c.stakes[key].lamports, c.stakes[key].rent + c.stakeSystem.list[stakeIndex].lamports)
  }

  /** The same for a cooled-down account. */
  lemma FewFeesKeepPriceDeactivated(c: Chain, stakeIndex: nat, key: Key, ready: bool)
    requires Inv(c) && 0 < c.msolSupply && Cranks.UpdateDeactivated(c, stakeIndex, key, ready).Ok?
    requires !Slashes(c, UpdateDeactivated(stakeIndex, key, ready))
    requires 0 < c.msolMint || !ready || Fee(c, CooledEarnings(c, stakeIndex, key)) <= c.msolSupply
    ensures NoCheaper(c, Cranks.UpdateDeactivated(c, stakeIndex, key, ready).value)
  {
    if c.msolMint == 0 {
      UpdateDeactivatedRestarts(c, stakeIndex, key, ready);
      FewSharesAreNoCheaper(c, CooledEarnings(c, stakeIndex, key),
                            Cranks.UpdateDeactivated(c, stakeIndex, key, ready).value);
    } else {
      UpdateDeactivatedKeepsPriceExactly(c, stakeIndex, key, ready);
    }
  }
}
