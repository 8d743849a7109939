/** What users get, exactly: when each of their instructions succeeds, and the whole chain afterwards, in
    amounts that are given by what they round to. */
module UserEffects {
  import opened Results
  import opened Calc
  import opened Records
  import opened State
  import opened Ledger
  import opened Rates
  import Users
  import opened UserBooks

  // ---------- deposit ----------

  /** How much of an order the pool's leg sells, and what it takes for it: the whole deposit if it sells the
      whole order, and the worth of what it sells otherwise. */
  function SoldOf(c: Chain, bought: nat): nat {
    if bought < c.msolLeg then bought else c.msolLeg
  }

  predicate Costs(c: Chain, lamports: nat, bought: nat, cost: nat) {
    if SoldOf(c, bought) == 0 then cost == 0
    else if SoldOf(c, bought) == bought then cost == lamports
    else IsWorth(cost, SoldOf(c, bought), Backing(c), c.msolSupply)
  }

  predicate DepositAccepted(c: Chain, lamports: nat, funds: nat, bought: nat, cost: nat)
    requires cost <= lamports && SoldOf(c, bought) <= bought
  {
    var kept, minted := lamports - cost, bought - SoldOf(c, bought);
    && !c.paused && c.config.minDeposit <= lamports <= funds
    && InPool(c) < U64_LIMIT && bought < U64_LIMIT && c.solLeg + cost < U64_LIMIT
    && (0 < kept ==> InPool(c) + kept < U64_LIMIT && InPool(c) + kept <= c.stakingCap
                     && c.reserve + kept < U64_LIMIT && c.available + kept < U64_LIMIT)
    && c.msolMint + minted < U64_LIMIT && c.msolSupply + minted < U64_LIMIT
  }

  lemma OrderIs(c: Chain, lamports: nat, bought: nat, cost: nat)
    requires c.msolLeg <= c.msolSupply && lamports < U64_LIMIT && c.msolSupply < U64_LIMIT
    requires Buys(bought, lamports, Backing(c), c.msolSupply) && Costs(c, lamports, bought, cost)
    ensures cost <= lamports && SoldOf(c, bought) <= bought
    ensures Users.DepositOrder(c, lamports)
         == if InPool(c) >= U64_LIMIT then Err(Overflow)
            else if bought >= U64_LIMIT then Err(CalculationFailure)
            else Ok(Users.Order(bought, SoldOf(c, bought), cost))
  {
    hide MsolFromLamports, MsolToSol, Buys, IsWorth, Backing;
    BuysMsol(c, bought, lamports);
    CostWithin(c, lamports, bought, cost);
    if 0 < SoldOf(c, bought) < bought {
      WorthLamports(c, cost, SoldOf(c, bought));
    }
  }

  lemma CostWithin(c: Chain, lamports: nat, bought: nat, cost: nat)
    requires c.msolLeg <= c.msolSupply
    requires Buys(bought, lamports, Backing(c), c.msolSupply) && Costs(c, lamports, bought, cost)
    ensures cost <= lamports
  {
    hide Backing;
    var v, s, k := Backing(c), c.msolSupply, SoldOf(c, bought);
    if 0 < k < bought {
      if v == 0 {
        CancelFactor(cost, 0, s);
      } else {
        MulMono(k, bought, v);
        CancelFactor(cost, lamports, s);
      }
    }
  }

  /** A deposit buys mSOL at the rate before it. The pool sells what it has of the order; the rest of the
      deposit goes to the reserve and the rest of the order is minted. */
  lemma DepositExactly(c: Chain, lamports: nat, funds: nat, bought: nat, cost: nat)
    requires Backed(c) && lamports < U64_LIMIT && c.msolSupply < U64_LIMIT
    requires Buys(bought, lamports, Backing(c), c.msolSupply) && Costs(c, lamports, bought, cost)
    ensures cost <= lamports && SoldOf(c, bought) <= bought
    ensures var r, sold := Users.Deposit(c, lamports, funds), SoldOf(c, bought);
            && (r.Ok? <==> DepositAccepted(c, lamports, funds, bought, cost))
            && (r.Ok? ==>
                  r.value == c.(solLeg := c.solLeg + cost, msolLeg := c.msolLeg - sold,
                                reserve := c.reserve + (lamports - cost),
                                available := c.available + (lamports - cost),
                                msolMint := c.msolMint + (bought - sold),
                                msolSupply := c.msolSupply + (bought - sold)))
  {
    hide Buys, Costs, Backing, Users.DepositOrder;
    OrderIs(c, lamports, bought, cost);
  }

  // ---------- deposit_stake_account ----------

  predicate StakeAccountAccepted(c: Chain, now: Clock, key: Key, account: StakeAccount, activationEpoch: nat,
                                 index: nat, bought: nat) {
    && !c.paused && c.msolMint <= c.msolSupply && !account.deactivating && activationEpoch <= now.epoch
    && c.stakeSystem.minStake <= account.stake && account.lamports == account.stake + account.rent
    && InPool(c) + account.stake < U64_LIMIT && InPool(c) + account.stake <= c.stakingCap
    && index < |c.validatorSystem.list| && c.validatorSystem.list[index].vote == account.voter
    && key !in c.stakes && |c.stakeSystem.list| < c.stakeSystem.capacity
    && c.validatorSystem.list[index].activeBalance + account.stake < U64_LIMIT
    && c.validatorSystem.totalActive + account.stake < U64_LIMIT
    && bought < U64_LIMIT && c.msolMint + bought < U64_LIMIT && c.msolSupply + bought < U64_LIMIT
  }

  /** A deposited stake account buys mSOL at the rate before it, and is booked as it was offered. */
  lemma DepositStakeAccountExactly(c: Chain, now: Clock, key: Key, account: StakeAccount, activationEpoch: nat,
                                   index: nat, bought: nat)
    requires account.stake < U64_LIMIT && Buys(bought, account.stake, Backing(c), c.msolSupply)
    ensures var r := Users.DepositStakeAccount(c, now, key, account, activationEpoch, index);
            && (r.Ok? <==> StakeAccountAccepted(c, now, key, account, activationEpoch, index, bought))
            && (r.Ok? ==>
                  var validator := c.validatorSystem.list[index];
                  r.value == c.(
                    stakeSystem := c.stakeSystem.(
                      list := c.stakeSystem.list + [StakeRecord(key, account.stake, now.epoch, 0)]),
                    validatorSystem := c.validatorSystem.(
                      list := c.validatorSystem.list[
                        index := validator.(activeBalance := validator.activeBalance + account.stake)],
                      totalActive := c.validatorSystem.totalActive + account.stake),
                    stakes := c.stakes[key := account],
                    msolMint := c.msolMint + bought, msolSupply := c.msolSupply + bought))
  {
    hide Buys, MsolFromLamports, SharesFromValue;
    if index < |c.validatorSystem.list| {
      var validator := c.validatorSystem.list[index];
      var c1 := WithValidator(c, index, validator.(activeBalance := validator.activeBalance + account.stake));
      var record := StakeRecord(key, account.stake, now.epoch, 0);
      var c2 := c1.(stakeSystem := c1.stakeSystem.(list := c1.stakeSystem.list + [record]),
                    stakes := c1.stakes[key := account]);
      BuysMsol(c2, bought, account.stake);
    }
  }

  // ---------- withdraw_stake_account ----------

  /** What is burned of the mSOL given in: what the lamports handed out would buy back, if the treasury takes
      the rest. */
  function BurnedOf(msol: nat, back: nat, ready: bool): nat {
    if ready && back < msol then back else msol
  }

  predicate WithdrawalAccepted(c: Chain, stakeIndex: nat, index: nat, msol: nat, funds: nat, key: Key, splitKey: Key,
                               ready: bool, value: nat, fee: nat, back: nat) {
    && splitKey !in c.stakes && !c.paused && c.config.withdrawEnabled
    && msol <= funds && c.msolLeg + funds <= c.msolMint && InPool(c) < U64_LIMIT && value < U64_LIMIT
    && stakeIndex < |c.stakeSystem.list| && c.stakeSystem.list[stakeIndex].account == key
    && c.stakeSystem.list[stakeIndex].emergency == 0
    && index < |c.validatorSystem.list|
    && key in c.stakes && !c.stakes[key].deactivating && c.stakes[key].voter == c.validatorSystem.list[index].vote
    && c.stakes[key].stake == c.stakeSystem.list[stakeIndex].lamports
    && c.config.minWithdraw <= value && fee <= value && c.stakeSystem.minStake <= value - fee
    && value - fee + c.stakeSystem.minStake <= c.stakeSystem.list[stakeIndex].lamports
    && value - fee <= c.stakes[key].lamports && (ready ==> back < U64_LIMIT)
  }

  lemma SplitIs(c: Chain, msol: nat, value: nat, fee: nat)
    requires msol < U64_LIMIT && c.config.withdrawFee <= 1_000_000
    requires IsWorth(value, msol, Backing(c), c.msolSupply) && Floors(fee, value, c.config.withdrawFee, 1_000_000)
    ensures var r := Users.SplitLamports(c, msol);
            && (r.Ok? <==> InPool(c) < U64_LIMIT && value < U64_LIMIT && c.config.minWithdraw <= value)
            && (r.Ok? ==> fee <= value && r.value == value - fee)
  {
    hide IsWorth, Backing, MsolToSol, Floors;
    WorthLamports(c, value, msol);
    if value < U64_LIMIT {
      FloorsPortion(fee, value, c.config.withdrawFee, 1_000_000);
    }
  }

  lemma FeesAre(c: Chain, msol: nat, lamports: nat, ready: bool, back: nat)
    requires lamports < U64_LIMIT && InPool(c) < U64_LIMIT
    requires Buys(back, lamports, Backing(c), c.msolSupply)
    ensures var r := Users.WithdrawFees(c, msol, lamports, ready);
            && (r.Ok? <==> (ready ==> back < U64_LIMIT))
            && (r.Ok? ==> r.value == msol - BurnedOf(msol, back, ready))
  {
    hide Buys, MsolFromLamports, Backing;
    BuysMsol(c, back, lamports);
  }

  /** What is handed out leaves the account, its record, its validator and the total alike. */
  lemma HandOutIs(c: Chain, stakeIndex: nat, index: nat, lamports: nat, burned: nat, splitKey: Key, rent: nat)
    requires Books(c) && c.msolMint <= c.msolSupply && burned <= c.msolMint && splitKey !in c.stakes
    requires stakeIndex < |c.stakeSystem.list| && index < |c.validatorSystem.list|
    requires var key := c.stakeSystem.list[stakeIndex].account;
             && lamports <= c.stakeSystem.list[stakeIndex].lamports == c.stakes[key].stake
             && !c.stakes[key].deactivating && c.stakes[key].voter == c.validatorSystem.list[index].vote
    ensures var stake, validator := c.stakeSystem.list[stakeIndex], c.validatorSystem.list[index];
            var account := c.stakes[stake.account];
            var r := Users.HandOut(c, stakeIndex, stake, index, validator, lamports, burned, splitKey, rent);
            && (r.Ok? <==> lamports <= account.lamports)
            && (r.Ok? ==> r.value == HandedOut(c, stakeIndex, index, lamports, burned))
  {
    hide Agree, ValidatorTotals;
    ActiveCovered(c, stakeIndex, index);
    var stake, validator := c.stakeSystem.list[stakeIndex], c.validatorSystem.list[index];
    var r := Users.HandOut(c, stakeIndex, stake, index, validator, lamports, burned, splitKey, rent);
    if r.Ok? {
      assert r.value.stakes == HandedOut(c, stakeIndex, index, lamports, burned).stakes;
    }
  }

  function HandedOut(c: Chain, stakeIndex: nat, index: nat, lamports: nat, burned: nat): Chain
    requires stakeIndex < |c.stakeSystem.list| && index < |c.validatorSystem.list|
    requires c.stakeSystem.list[stakeIndex].account in c.stakes
  {
    var stake, validator := c.stakeSystem.list[stakeIndex], c.validatorSystem.list[index];
    var account := c.stakes[stake.account];
    c.(stakeSystem := c.stakeSystem.(
         list := c.stakeSystem.list[stakeIndex := stake.(lamports := Less(stake.lamports, lamports))]),
       validatorSystem := c.validatorSystem.(
         list := c.validatorSystem.list[
           index := validator.(activeBalance := Less(validator.activeBalance, lamports))],
         totalActive := Less(c.validatorSystem.totalActive, lamports)),
       stakes := c.stakes[stake.account := account.(stake := Less(account.stake, lamports),
                                                    lamports := Less(account.lamports, lamports))],
       msolMint := Less(c.msolMint, burned), msolSupply := Less(c.msolSupply, burned))
  }

  // a - b, where b is at most a
  function Less(a: nat, b: nat): nat {
    if b <= a then a - b else 0
  }

  /** Withdrawn mSOL is valued at the rate before; the lamports handed out are its value less the fee in
      millionths; the treasury, if it can, keeps the mSOL they would not buy back; the rest is burned. */
  lemma WithdrawStakeAccountExactly(c: Chain, stakeIndex: nat, index: nat, msol: nat, funds: nat, key: Key,
                                    splitKey: Key, rent: nat, ready: bool, value: nat, fee: nat, back: nat)
    requires Inv(c) && msol < U64_LIMIT
    requires IsWorth(value, msol, Backing(c), c.msolSupply) && Floors(fee, value, c.config.withdrawFee, 1_000_000)
    requires Buys(back, Less(value, fee), Backing(c), c.msolSupply)
    ensures var r := Users.WithdrawStakeAccount(c, stakeIndex, index, msol, funds, key, splitKey, rent, ready);
            && (r.Ok? <==>
                  WithdrawalAccepted(c, stakeIndex, index, msol, funds, key, splitKey, ready, value, fee, back))
            && (r.Ok? ==>
                  r.value == HandedOut(c, stakeIndex, index, value - fee, BurnedOf(msol, back, ready)))
  {
    hide Books, TicketTotals, IsWorth, Buys, Backing, Floors, Users.SplitLamports, Users.WithdrawFees, Users.HandOut;
    SplitIs(c, msol, value, fee);
    if stakeIndex < |c.stakeSystem.list| && index < |c.validatorSystem.list| && key in c.stakes
       && Users.SplitLamports(c, msol).Ok? {
      FeesAre(c, msol, value - fee, ready, back);
      if WithdrawReady(c, stakeIndex, index, msol, funds, key, splitKey, value - fee) {
        HandOutIs(c, stakeIndex, index, value - fee, BurnedOf(msol, back, ready), splitKey, rent);
      }
    }
  }

  predicate WithdrawReady(c: Chain, stakeIndex: nat, index: nat, msol: nat, funds: nat, key: Key, splitKey: Key,
                          lamports: nat)
    requires stakeIndex < |c.stakeSystem.list| && index < |c.validatorSystem.list| && key in c.stakes
  {
    && splitKey !in c.stakes && msol <= funds && c.msolLeg + funds <= c.msolMint
    && c.stakeSystem.list[stakeIndex].account == key && !c.stakes[key].deactivating
    && c.stakes[key].voter == c.validatorSystem.list[index].vote
    && lamports <= c.stakeSystem.list[stakeIndex].lamports == c.stakes[key].stake
  }

  // ---------- order_unstake and claim ----------

  predicate OrderAccepted(c: Chain, now: Clock, msol: nat, funds: nat, ticketKey: Key, value: nat, fee: nat) {
    && ticketKey !in c.tickets && !c.paused && msol <= funds && c.msolLeg + funds <= c.msolMint
    && InPool(c) < U64_LIMIT && value < U64_LIMIT && fee <= value && c.config.minWithdraw <= value - fee
    && c.ticketBalance + (value - fee) < U64_LIMIT && c.ticketCount + 1 < U64_LIMIT && DueFrom(c, now) < U64_LIMIT
  }

  /** The epoch from which a ticket ordered now is due: the next one once stake has been moved in this. */
  function DueFrom(c: Chain, now: Clock): nat {
    if now.epoch == c.stakeSystem.lastDeltaEpoch then now.epoch + 1 else now.epoch
  }

  /** All mSOL of an order is burned; its ticket is for its value less the fee in millionths. */
  lemma OrderUnstakeExactly(c: Chain, now: Clock, msol: nat, funds: nat, ticketKey: Key, beneficiary: Key, value: nat,
                            fee: nat)
    requires Backed(c) && msol < U64_LIMIT && c.config.delayedFee <= 1_000_000
    requires IsWorth(value, msol, Backing(c), c.msolSupply) && Floors(fee, value, c.config.delayedFee, 1_000_000)
    ensures var r := Users.OrderUnstake(c, now, msol, funds, ticketKey, beneficiary);
            && (r.Ok? <==> OrderAccepted(c, now, msol, funds, ticketKey, value, fee))
            && (r.Ok? ==>
                  r.value == c.(
                    ticketBalance := c.ticketBalance + (value - fee), ticketCount := c.ticketCount + 1,
                    tickets := c.tickets[ticketKey := Ticket(beneficiary, value - fee, DueFrom(c, now))],
                    msolMint := Less(c.msolMint, msol), msolSupply := Less(c.msolSupply, msol)))
  {
    hide IsWorth, Backing, MsolToSol, Floors, Portion;
    WorthLamports(c, value, msol);
    if value < U64_LIMIT {
      FloorsPortion(fee, value, c.config.delayedFee, 1_000_000);
    }
  }

  predicate ClaimAccepted(c: Chain, now: Clock, ticketKey: Key, receiver: Key) {
    && !c.paused && ticketKey in c.tickets
    && var ticket := c.tickets[ticketKey];
       && receiver == ticket.beneficiary && 0 < ticket.lamports
       && ticket.createdEpoch <= now.epoch && (ticket.createdEpoch == now.epoch ==> 1 <= now.age)
       && ticket.lamports <= c.available
  }

  /** A ticket is due from its epoch on, a second after the epoch has begun; it is paid to its beneficiary
      alone, in full, and closed. */
  lemma ClaimExactly(c: Chain, now: Clock, ticketKey: Key, receiver: Key)
    requires Inv(c)
    ensures var r := Users.Claim(c, now, ticketKey, receiver);
            && (r.Ok? <==> ClaimAccepted(c, now, ticketKey, receiver))
            && (r.Ok? ==>
                  var lamports := c.tickets[ticketKey].lamports;
                  r.value == c.(
                    ticketBalance := Less(c.ticketBalance, lamports), ticketCount := Less(c.ticketCount, 1),
                    tickets := c.tickets - {ticketKey},
                    reserve := Less(c.reserve, lamports), available := Less(c.available, lamports)))
  {
    hide Books;
    if ticketKey in c.tickets {
      TicketSumRemove(c.tickets, ticketKey);
    }
  }
}
