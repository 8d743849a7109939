/** The two update instructions keep the books, align the virtual reserve with the real one, and book
    a slash exactly. */
module UpdateBooks {
  import opened Results
  import opened Calc
  import opened Records
  import opened State
  import opened Cranks
  import opened Ledger
  import opened CrankBooks

  /** The same accounts with the same voters, deactivating or not as before. */
  ghost predicate SameStatus(before: map<Key, StakeAccount>, after: map<Key, StakeAccount>) {
    && after.Keys == before.Keys
    && forall key :: key in after ==>
         after[key].voter == before[key].voter && after[key].deactivating == before[key].deactivating
  }

  /** What no part of an update changes, and what it changes only together. */
  ghost predicate SameTokens(c: Chain, c': Chain) {
    && c'.config == c.config && c'.liqPool == c.liqPool
    && c'.tickets == c.tickets && c'.ticketBalance == c.ticketBalance && c'.ticketCount == c.ticketCount
    && c'.msolLeg == c.msolLeg && c'.lpMint == c.lpMint && c'.solLeg == c.solLeg
    && c'.lastMoveEpoch == c.lastMoveEpoch && c'.stakeMoved == c.stakeMoved
    && c'.msolMint >= c.msolMint && c'.msolMint - c.msolMint == c'.msolSupply - c.msolSupply
    && c'.reserve - c'.available == c.reserve - c.available
  }

  /** Only lamports and mSOL moved, and as much into the virtual reserve as into the real one. */
  ghost predicate OnlyFunds(c: Chain, c': Chain) {
    && c'.stakeSystem == c.stakeSystem && c'.validatorSystem == c.validatorSystem
    && c'.emergencyCooling == c.emergencyCooling
    && SameStatus(c.stakes, c'.stakes)
    && SameTokens(c, c')
  }

  /** After an update the virtual balances are the real ones. */
  ghost predicate Updated(c: Chain, c': Chain) {
    && c'.config == c.config && c'.liqPool == c.liqPool && c'.stakeSystem.minStake == c.stakeSystem.minStake
    && c'.tickets == c.tickets && c'.ticketBalance == c.ticketBalance && c'.ticketCount == c.ticketCount
    && c'.msolLeg == c.msolLeg && c'.lpMint == c.lpMint && c'.solLeg == c.solLeg
    && c'.lastMoveEpoch == c.lastMoveEpoch && c'.stakeMoved == c.stakeMoved
    && c'.msolMint >= c.msolMint && c'.msolMint == c'.msolSupply
    && c'.available + c'.config.rentExempt == c'.reserve
  }

  lemma MintProtocolFeesIsFunds(c: Chain, lamports: nat, treasuryReady: bool)
    ensures var r := MintProtocolFees(c, lamports, treasuryReady);
            && r != Err(BalanceUnderflow) && r != Err(AssertFailed)
            && (r.Ok? ==>
                  r.value == c.(msolMint := r.value.msolMint, msolSupply := r.value.msolSupply)
                  && SameTokens(c, r.value))
  {
  }

  lemma WithdrawToReserveIsFunds(c: Chain, key: Key, amount: nat)
    ensures var r := WithdrawToReserve(c, key, amount);
            && r != Err(BalanceUnderflow) && r != Err(AssertFailed)
            && (r.Ok? ==> OnlyFunds(c, r.value) && r.value.available == c.available + amount)
  {
  }

  lemma TakeExtraIsFunds(c: Chain, key: Key, extra: nat, treasuryReady: bool)
    ensures var r := TakeExtra(c, key, extra, treasuryReady);
            && r != Err(BalanceUnderflow) && r != Err(AssertFailed)
            && (r.Ok? ==> OnlyFunds(c, r.value))
  {
    WithdrawToReserveIsFunds(c, key, extra);
    var c1 := WithdrawToReserve(c, key, extra);
    if c1.Ok? {
      MintProtocolFeesIsFunds(c1.value, extra, treasuryReady);
    }
  }

  /** A balance and the total that both cover what was recorded follow the delegation exactly, up for
      rewards and down for a slash: the subtractions of a slash never saturate. */
  lemma ObservedExactly(c: Chain, index: nat, validator: ValidatorRecord, before: nat, delegated: nat,
                        treasuryReady: bool)
    requires index < |c.validatorSystem.list| && before <= validator.activeBalance <= c.validatorSystem.totalActive
    ensures var r := ObserveDelegation(c, index, validator, before, delegated, treasuryReady);
            && r != Err(BalanceUnderflow) && r != Err(AssertFailed)
            && (r.Ok? ==>
                  var system := c.validatorSystem.(
                    list := c.validatorSystem.list[index := validator.(activeBalance := validator.activeBalance - before
                                                                       + delegated)],
                    totalActive := c.validatorSystem.totalActive - before + delegated);
                  r.value == c.(validatorSystem := system, msolMint := r.value.msolMint,
                                msolSupply := r.value.msolSupply)
                  && SameTokens(c, r.value))
  {
    if delegated >= before {
      MintProtocolFeesIsFunds(c, delegated - before, treasuryReady);
    }
  }

  lemma ObservedKeepsBooks(c: Chain, now: Clock, stakeIndex: nat, stake: StakeRecord, index: nat,
                           validator: ValidatorRecord,
                           delegated: nat, treasuryReady: bool, c2: Chain)
    requires Books(c) && stakeIndex < |c.stakeSystem.list| && c.stakeSystem.list[stakeIndex] == stake
    requires index < |c.validatorSystem.list| && c.validatorSystem.list[index] == validator
    requires BucketOf(c.stakes, stake) == Active(validator.vote)
    requires stake.lamports <= validator.activeBalance <= c.validatorSystem.totalActive
    requires c2.stakeSystem == c.stakeSystem && c2.validatorSystem == c.validatorSystem
             && c2.emergencyCooling == c.emergencyCooling
    requires SameStatus(c.stakes, c2.stakes)
    requires ObserveDelegation(c2, index, validator, stake.lamports, delegated, treasuryReady).Ok?
    ensures var c3 := ObserveDelegation(c2, index, validator, stake.lamports, delegated, treasuryReady).value;
            stakeIndex < |c3.stakeSystem.list| &&
            Books(WithRecord(c3, stakeIndex, stake.(epoch := now.epoch, lamports := delegated)))
  {
    hide Agree, ValidatorTotals;
    ObservedExactly(c2, index, validator, stake.lamports, delegated, treasuryReady);
    var c3 := ObserveDelegation(c2, index, validator, stake.lamports, delegated, treasuryReady).value;
    var record := stake.(epoch := now.epoch, lamports := delegated);
    AdjustKeepsBooks(c, stakeIndex, record, index,
                     validator.(activeBalance := validator.activeBalance - stake.lamports + delegated),
                     WithRecord(c3, stakeIndex, record));
  }

  lemma BookActiveKeepsBooks(c: Chain, now: Clock, stakeIndex: nat, stake: StakeRecord, index: nat,
                             validator: ValidatorRecord,
                               account: StakeAccount, treasuryReady: bool)
    requires Books(c) && stakeIndex < |c.stakeSystem.list| && c.stakeSystem.list[stakeIndex] == stake
    requires index < |c.validatorSystem.list| && c.validatorSystem.list[index] == validator
    requires BucketOf(c.stakes, stake) == Active(validator.vote)
    requires c.available + c.config.rentExempt == c.reserve
    ensures var r := BookActive(c, now, stakeIndex, stake, index, validator, account, treasuryReady);
            Sound(r) && (r.Ok? ==> SameTokens(c, r.value) && r.value.stakeSystem.minStake == c.stakeSystem.minStake)
  {
    hide Agree, ValidatorTotals, TakeExtra, ObserveDelegation;
    if account.rent <= account.lamports {
      var extra := SatSub(account.lamports - account.rent, account.stake);
      TakeExtraIsFunds(c, stake.account, extra, treasuryReady);
      var c1 := TakeExtra(c, stake.account, extra, treasuryReady);
      if c1.Ok? {
        ActiveCovered(c, stakeIndex, index);
        ObservedExactly(c1.value, index, validator, stake.lamports, account.stake, treasuryReady);
        if ObserveDelegation(c1.value, index, validator, stake.lamports, account.stake, treasuryReady).Ok? {
          ObservedKeepsBooks(c, now, stakeIndex, stake, index, validator, account.stake, treasuryReady, c1.value);
        }
      }
    }
  }

  lemma UpdateActiveIsSound(c: Chain, now: Clock, stakeIndex: nat, index: nat, key: Key, treasuryReady: bool)
    requires Books(c) && c.config.rentExempt <= c.reserve
    ensures var r := UpdateActive(c, now, stakeIndex, index, key, treasuryReady);
            Sound(r) && (r.Ok? ==> Updated(c, r.value))
  {
    var c1 := Begin(c);
    var found := GetStake(c.stakeSystem, stakeIndex, key);
    if found.Ok? && !c.stakes[key].deactivating {
      var listed := GetValidator(c.validatorSystem, index, c.stakes[key].voter);
      if listed.Ok? {
        assert Books(c1);
        BookActiveKeepsBooks(c1, now, stakeIndex, found.value, index, listed.value, c.stakes[key], treasuryReady);
      }
    }
  }

  // ---------- update_deactivated ----------

  /** What a record holds in a cooling bucket can be taken out of that bucket's total. */
  lemma LeaveCoolingIsExact(c: Chain, stakeIndex: nat, stake: StakeRecord, c2: Chain)
    requires Books(c) && stakeIndex < |c.stakeSystem.list| && c.stakeSystem.list[stakeIndex] == stake
    requires BucketOf(c.stakes, stake) in {Delayed, Emergency}
    requires c2.stakeSystem == c.stakeSystem && c2.emergencyCooling == c.emergencyCooling
    ensures var delayed := InBucket(c.stakes, Delayed)(stake);
            var emergency := InBucket(c.stakes, Emergency)(stake);
            && delayed <= c.stakeSystem.delayedCooling && emergency <= c.emergencyCooling
            && LeaveCooling(c2, stake) == Ok(c2.(
                 stakeSystem := c.stakeSystem.(delayedCooling := c.stakeSystem.delayedCooling - delayed),
                 emergencyCooling := c.emergencyCooling - emergency))
  {
    RecordBooked(c, stakeIndex);
  }

  lemma DropCooledKeepsBooks(c: Chain, stakeIndex: nat, stake: StakeRecord, c2: Chain)
    requires Books(c) && stakeIndex < |c.stakeSystem.list| && c.stakeSystem.list[stakeIndex] == stake
    requires BucketOf(c.stakes, stake) in {Delayed, Emergency}
    requires c2.stakeSystem == c.stakeSystem && c2.validatorSystem == c.validatorSystem
             && c2.emergencyCooling == c.emergencyCooling
    requires SameStatus(c.stakes, c2.stakes)
    ensures DropCooled(c2, stakeIndex, stake).Ok?
    ensures var c3 := DropCooled(c2, stakeIndex, stake).value;
            Books(c3) && SameTokens(c2, c3) && c3.stakeSystem.minStake == c2.stakeSystem.minStake
  {
    LeaveCoolingIsExact(c, stakeIndex, stake, c2);
    DropKeepsBooks(c, stakeIndex, DropCooled(c2, stakeIndex, stake).value);
  }

  lemma DrainIsFunds(c: Chain, key: Key, account: StakeAccount)
    requires account.rent <= account.lamports
    ensures var r := Drain(c, key, account);
            && r !in {Err(BalanceUnderflow), Err(AssertFailed), Err(ReserveShort), Err(ReserveUnderflow)}
            && (r.Ok? ==> OnlyFunds(c, r.value) && r.value.available == c.available + (account.lamports - account.rent))
  {
    WithdrawToReserveIsFunds(c, key, account.lamports);
  }

  lemma CooledFeesIsFunds(c: Chain, before: nat, balance: nat, treasuryReady: bool)
    ensures var r := CooledFees(c, before, balance, treasuryReady);
            && r != Err(BalanceUnderflow) && r != Err(AssertFailed)
            && (r.Ok? ==> OnlyFunds(c, r.value))
  {
    if balance >= before {
      MintProtocolFeesIsFunds(c, balance - before, treasuryReady);
    }
  }

  ghost predicate Dropped(c: Chain, r: Result<Chain>) {
    Sound(r) && (r.Ok? ==> SameTokens(c, r.value) && r.value.stakeSystem.minStake == c.stakeSystem.minStake)
  }

  lemma CloseCooledKeepsBooks(c: Chain, stakeIndex: nat, stake: StakeRecord, account: StakeAccount, c1: Chain)
    requires Books(c) && stakeIndex < |c.stakeSystem.list| && c.stakeSystem.list[stakeIndex] == stake
    requires BucketOf(c.stakes, stake) in {Delayed, Emergency}
    requires OnlyFunds(c, c1) && account.rent <= account.lamports
    ensures Dropped(c, CloseCooled(c1, stakeIndex, stake, account))
  {
    DrainIsFunds(c1, stake.account, account);
    var c2 := Drain(c1, stake.account, account);
    if c2.Ok? {
      DropCooledKeepsBooks(c, stakeIndex, stake, c2.value);
    }
  }

  lemma BookDeactivatedKeepsBooks(c: Chain, stakeIndex: nat, stake: StakeRecord, account: StakeAccount,
                                  treasuryReady: bool)
    requires Books(c) && stakeIndex < |c.stakeSystem.list| && c.stakeSystem.list[stakeIndex] == stake
    requires BucketOf(c.stakes, stake) in {Delayed, Emergency}
    ensures Dropped(c, BookDeactivated(c, stakeIndex, stake, account, treasuryReady))
  {
    hide CooledFees, CloseCooled, Books, OnlyFunds;
    if account.rent <= account.lamports {
      var balance := account.lamports - account.rent;
      CooledFeesIsFunds(c, stake.lamports, balance, treasuryReady);
      match CooledFees(c, stake.lamports, balance, treasuryReady)
      case Err(_) =>
      case Ok(c1) => CloseCooledKeepsBooks(c, stakeIndex, stake, account, c1);
    }
  }

  lemma UpdateDeactivatedIsSound(c: Chain, stakeIndex: nat, key: Key, treasuryReady: bool)
    requires Books(c) && c.config.rentExempt <= c.reserve
    ensures var r := UpdateDeactivated(c, stakeIndex, key, treasuryReady);
            Sound(r) && (r.Ok? ==> Updated(c, r.value))
  {
    var found := GetStake(c.stakeSystem, stakeIndex, key);
    if found.Ok? && c.stakes[key].deactivating {
      var c1 := Begin(c);
      assert Books(c1);
      BookDeactivatedKeepsBooks(c1, stakeIndex, found.value, c.stakes[key], treasuryReady);
    }
  }
}
