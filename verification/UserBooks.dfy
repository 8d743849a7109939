/** The user, pool and admin instructions keep the books, and never fail on a ledger balance. */
module UserBooks {
  import opened Results
  import opened Calc
  import opened Sums
  import opened Records
  import opened State
  import opened Admin
  import opened Users
  import opened Pools
  import opened Ledger
  import opened CrankBooks

  // ---------- deposits ----------

  /** The lamports paid to the pool for part of an order never exceed the deposit. */
  lemma SwapCostsAtMostDeposit(c: Chain, lamports: nat)
    requires c.msolLeg <= c.msolSupply
    ensures var r := DepositOrder(c, lamports);
            r.Ok? ==>
              r.value.swapped <= r.value.bought && r.value.swapped <= c.msolLeg && r.value.solSwapped <= lamports
    ensures var r := DepositOrder(c, lamports); r.Err? ==> r.error in {Overflow, CalculationFailure}
  {
    var bought := MsolFromLamports(c, lamports);
    if bought.Ok? && 0 < c.msolLeg < bought.value && MsolToSol(c, c.msolLeg).Ok? {
      var k, v, s := c.msolLeg, Virtual(c), c.msolSupply;
      var cost := MsolToSol(c, k).value;
      FloorBounds(k, v, s);
      if v > 0 {
        FloorBounds(lamports, s, v);
        MulMono(k, bought.value, v);
        CancelFactor(cost, lamports, s);
      } else {
        CancelFactor(cost, 0, s);
      }
    }
  }

  lemma DepositIsSound(c: Chain, lamports: nat, funds: nat)
    requires Inv(c)
    ensures Sound(Deposit(c, lamports, funds))
  {
    hide DepositOrder, SumBy;
    SwapCostsAtMostDeposit(c, lamports);
  }

  lemma DepositStakeAccountIsSound(c: Chain, now: Clock, key: Key, account: StakeAccount, activationEpoch: nat,
                                   index: nat)
    requires Books(c)
    ensures Sound(DepositStakeAccount(c, now, key, account, activationEpoch, index))
  {
    hide Agree, ValidatorTotals, Virtual;
    var r := DepositStakeAccount(c, now, key, account, activationEpoch, index);
    if r.Ok? {
      var validator := c.validatorSystem.list[index];
      AddKeepsBooks(c, StakeRecord(key, account.stake, now.epoch, 0), index,
                    validator.(activeBalance := validator.activeBalance + account.stake), r.value);
    }
  }

  // ---------- withdraw_stake_account ----------

  lemma SplitLamportsIsSound(c: Chain, msol: nat)
    requires c.config.withdrawFee <= MAX_WITHDRAW_STAKE_ACCOUNT_FEE
    ensures var r := SplitLamports(c, msol);
            && r != Err(BalanceUnderflow) && r != Err(AssertFailed)
            && (r.Ok? ==> MsolToSol(c, msol).Ok? && r.value <= MsolToSol(c, msol).value)
  {
    var value := MsolToSol(c, msol);
    if value.Ok? {
      PortionAtMost(value.value, c.config.withdrawFee, MAX_BP_CENTS);
    }
  }

  lemma HandedOutAccounts(stakes: map<Key, StakeAccount>, key: Key, lamports: nat, splitKey: Key, rent: nat)
    requires SplitStake(stakes, key, lamports, splitKey, rent).Ok?
    ensures var after := SplitStake(stakes, key, lamports, splitKey, rent).value - {splitKey};
            && after.Keys == stakes.Keys
            && forall k :: k in after ==>
                 after[k].voter == stakes[k].voter && after[k].deactivating == stakes[k].deactivating
  {
  }

  lemma HandOutKeepsBooks(c: Chain, stakeIndex: nat, stake: StakeRecord, index: nat, validator: ValidatorRecord,
                          lamports: nat,
                          burned: nat, splitKey: Key, rent: nat)
    requires Books(c) && Found(c, stakeIndex, stake, index, validator) && !c.stakes[stake.account].deactivating
    requires lamports <= stake.lamports && burned <= c.msolMint <= c.msolSupply
    ensures Sound(HandOut(c, stakeIndex, stake, index, validator, lamports, burned, splitKey, rent))
  {
    hide Agree, ValidatorTotals;
    FoundCovered(c, stakeIndex, stake, index, validator);
    var r := HandOut(c, stakeIndex, stake, index, validator, lamports, burned, splitKey, rent);
    if r.Ok? {
      HandedOutAccounts(c.stakes, stake.account, lamports, splitKey, rent);
      AdjustKeepsBooks(c, stakeIndex, stake.(lamports := stake.lamports - lamports), index,
                       validator.(activeBalance := validator.activeBalance - lamports), r.value);
    }
  }

  lemma WithdrawStakeAccountIsSound(c: Chain, stakeIndex: nat, index: nat, msol: nat, funds: nat, key: Key,
                                    splitKey: Key,
                                    rent: nat, treasuryReady: bool)
    requires Books(c) && c.msolMint <= c.msolSupply && c.config.withdrawFee <= MAX_WITHDRAW_STAKE_ACCOUNT_FEE
    ensures Sound(WithdrawStakeAccount(c, stakeIndex, index, msol, funds, key, splitKey, rent, treasuryReady))
  {
    hide Books, HandOut, SplitLamports;
    SplitLamportsIsSound(c, msol);
    var found := GetStake(c.stakeSystem, stakeIndex, key);
    var listed := Get(c.validatorSystem.list, index);
    if found.Ok? && listed.Ok? && CheckStake(c.stakes, key, found.value.lamports, listed.value.vote).Pass?
       && !c.stakes[key].deactivating && msol <= c.msolMint {
      var lamports := SplitLamports(c, msol);
      if lamports.Ok? && lamports.value <= found.value.lamports {
        var fees := WithdrawFees(c, msol, lamports.value, treasuryReady);
        if fees.Ok? {
          HandOutKeepsBooks(c, stakeIndex, found.value, index, listed.value, lamports.value, msol - fees.value,
                            splitKey, rent);
        }
      }
    }
  }

  // ---------- tickets ----------

  lemma OrderUnstakeIsSound(c: Chain, now: Clock, msol: nat, funds: nat, ticketKey: Key, beneficiary: Key)
    requires Inv(c)
    ensures Sound(OrderUnstake(c, now, msol, funds, ticketKey, beneficiary))
  {
    var value := MsolToSol(c, msol);
    if value.Ok? {
      PortionAtMost(value.value, c.config.delayedFee, MAX_BP_CENTS);
    }
  }

  /** The sum over the tickets does not depend on the order they are taken in. */
  lemma TicketSumRemove(tickets: map<Key, Ticket>, key: Key)
    requires key in tickets
    ensures TicketSum(tickets) == tickets[key].lamports + TicketSum(tickets - {key})
    decreases |tickets|
  {
    var first :| first in tickets && TicketSum(tickets) == tickets[first].lamports + TicketSum(tickets - {first});
    if first != key {
      TicketSumRemove(tickets - {first}, key);
      TicketSumRemove(tickets - {key}, first);
      assert tickets - {first} - {key} == tickets - {key} - {first};
    }
  }

  lemma TicketSumAdd(tickets: map<Key, Ticket>, key: Key, ticket: Ticket)
    requires key !in tickets
    ensures TicketSum(tickets[key := ticket]) == ticket.lamports + TicketSum(tickets)
  {
    TicketSumRemove(tickets[key := ticket], key);
    assert tickets[key := ticket] - {key} == tickets;
  }

  lemma ClaimIsSound(c: Chain, now: Clock, ticketKey: Key, receiver: Key)
    requires Inv(c)
    ensures Sound(Claim(c, now, ticketKey, receiver))
  {
    if ticketKey in c.tickets {
      TicketSumRemove(c.tickets, ticketKey);
    }
  }

  // ---------- the pool ----------

  /** The liquid unstake fee lies between the two configured fees. */
  lemma UnstakeFeeInRange(c: Chain, lamports: nat)
    requires Validate(c.liqPool).Pass?
    ensures var r := UnstakeFee(c, lamports);
            r.Ok? && c.liqPool.minFee <= r.value <= c.liqPool.maxFee
  {
    var leg := SatSub(c.solLeg, c.config.rentExempt);
    if lamports < leg && leg - lamports < c.liqPool.target {
      var delta, x, target := c.liqPool.maxFee - c.liqPool.minFee, leg - lamports, c.liqPool.target;
      MulMono(x, target, delta);
      var q := delta * x / target;
      DivMod(delta * x, target);
      CancelFactor(q, delta, target);
    }
  }

  lemma LiquidUnstakeIsSound(c: Chain, msol: nat, funds: nat, treasuryReady: bool)
    requires Inv(c)
    ensures Sound(LiquidUnstake(c, msol, funds, treasuryReady))
  {
    var lamports := MsolToSol(c, msol);
    if lamports.Ok? {
      UnstakeFeeInRange(c, lamports.value);
      var feePoints := UnstakeFee(c, lamports.value).value;
      PortionAtMost(msol, feePoints, MAX_BASIS_POINTS);
      PortionAtMost(FeeApply(feePoints, msol), c.liqPool.treasuryCut, MAX_BASIS_POINTS);
    }
  }

  lemma AddLiquidityIsSound(c: Chain, lamports: nat, funds: nat)
    requires Inv(c)
    ensures Sound(AddLiquidity(c, lamports, funds))
  {
  }

  /** A share of a leg is at most the leg. */
  lemma ShareAtMost(tokens: nat, leg: nat, supply: nat)
    requires tokens <= supply
    ensures var r := Proportional(tokens, leg, supply);
            r.Ok? && supply > 0 ==> r.value <= leg
  {
    if supply > 0 && Proportional(tokens, leg, supply).Ok? {
      FloorBounds(tokens, leg, supply);
      MulMono(tokens, supply, leg);
      CancelFactor(Proportional(tokens, leg, supply).value, leg, supply);
    }
  }

  lemma RemoveLiquidityIsSound(c: Chain, tokens: nat, funds: nat)
    requires Inv(c)
    ensures Sound(RemoveLiquidity(c, tokens, funds))
  {
    if tokens <= c.lpMint {
      ShareAtMost(tokens, c.solLeg - c.config.rentExempt, c.lpMint);
      ShareAtMost(tokens, c.msolLeg, c.lpMint);
    }
  }

  // ---------- the validator list ----------

  lemma AddValidatorIsSound(c: Chain, vote: Key, score: u32, bump: u8)
    requires Books(c)
    ensures var r := AddValidator(c, vote, score, bump); Sound(r) && (r.Ok? ==> SameFunds(c, r.value))
  {
    var r := AddValidator(c, vote, score, bump);
    if r.Ok? {
      var c' := r.value;
      var validator := ValidatorRecord(vote, 0, score, NEVER, bump);
      SumPush(c.validatorSystem.list, validator, Balance());
      SumPush(c.validatorSystem.list, validator, Score());
      forall bucket
        ensures Posted(c'.stakeSystem.list, c'.stakes, bucket) == Booked(c', bucket)
      {
        AgreeAt(c, bucket);
        if bucket.Active? {
          SumPush(c.validatorSystem.list, validator, OnVote(bucket.vote));
        }
      }
    }
  }

  lemma RemovalKeepsVotes(validators: seq<ValidatorRecord>, i: nat)
    requires DistinctVotes(validators) && i < |validators|
    ensures DistinctVotes(SwapRemove(validators, i))
  {
  }

  lemma RemoveValidatorIsSound(c: Chain, index: nat, vote: Key)
    requires Books(c)
    ensures var r := RemoveValidator(c, index, vote); Sound(r) && (r.Ok? ==> SameFunds(c, r.value))
  {
    hide SwapRemove, SumBy, Posted, DistinctVotes;
    var r := RemoveValidator(c, index, vote);
    if index < |c.validatorSystem.list| {
      SumMember(c.validatorSystem.list, Score(), index);
    }
    if r.Ok? {
      var c' := r.value;
      RemovalKeepsVotes(c.validatorSystem.list, index);
      SumRemove(c.validatorSystem.list, Balance(), index);
      SumRemove(c.validatorSystem.list, Score(), index);
      forall bucket
        ensures Posted(c'.stakeSystem.list, c'.stakes, bucket) == Booked(c', bucket)
      {
        AgreeAt(c, bucket);
        if bucket.Active? {
          SumRemove(c.validatorSystem.list, OnVote(bucket.vote), index);
        }
      }
    }
  }

  lemma SetValidatorScoreIsSound(c: Chain, index: nat, vote: Key, score: u32)
    requires Books(c)
    ensures var r := SetValidatorScore(c, index, vote, score); Sound(r) && (r.Ok? ==> SameFunds(c, r.value))
  {
    var r := SetValidatorScore(c, index, vote, score);
    if index < |c.validatorSystem.list| {
      SumMember(c.validatorSystem.list, Score(), index);
    }
    if r.Ok? {
      var c' := r.value;
      var validator := c.validatorSystem.list[index].(score := score);
      ValidatorSet(c.validatorSystem, index, validator, c'.validatorSystem);
      forall bucket
        ensures Posted(c'.stakeSystem.list, c'.stakes, bucket) == Booked(c', bucket)
      {
        AgreeAt(c, bucket);
        BookSet(c.validatorSystem.list, c.stakeSystem.delayedCooling, c.emergencyCooling, index, validator,
                c.stakeSystem.delayedCooling, c.emergencyCooling, bucket);
      }
    }
  }
}
