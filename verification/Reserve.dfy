/** Transfers out of the reserve. Staking decides on an amount that counts stake still cooling down, so the
    real reserve may not cover it; and staking and paying a claim, which decide on the real balance, then
    subtract from the virtual one, which may lag behind. This says exactly when they fail on either
    balance, which runs cannot lead there, and that no other instruction ever does. */
module Reserve {
  import opened Results
  import opened Calc
  import opened Records
  import opened State
  import opened Admin
  import opened Ledger
  import opened Machine
  import Cranks
  import Users
  import opened CrankBooks
  import opened UpdateBooks
  import opened UserBooks
  import opened Invariants

  // ---------- exactly when ----------

  /** A ticket its beneficiary may claim now is paid exactly when the virtual balance covers it; when only
      the real one does, the claim fails on the subtraction; and otherwise the user is told to wait. */
  lemma ClaimRunsShortExactly(c: Chain, now: Clock, ticketKey: Key, receiver: Key)
    requires Inv(c) && ticketKey in c.tickets && receiver == c.tickets[ticketKey].beneficiary && !c.paused
    requires Users.CheckTicket(now, c.tickets[ticketKey]).Pass?
    ensures var r, lamports := Users.Claim(c, now, ticketKey, receiver), c.tickets[ticketKey].lamports;
            && (r.Ok? <==> lamports <= c.available)
            && (r == Err(ReserveUnderflow) <==> c.available < lamports <= c.reserve - c.config.rentExempt)
            && (r == Err(TicketNotReady) <==> c.reserve - c.config.rentExempt < lamports)
  {
    TicketSumRemove(c.tickets, ticketKey);
  }

  /** Everything before the transfer lets `amount` be staked to the validator. */
  ghost predicate WouldStake(c: Chain, now: Clock, index: nat, vote: Key, newKey: Key, amount: nat) {
    && newKey !in c.stakes && !c.paused
    && 0 < StakeDelta(c) < U64_LIMIT
    && GetValidator(c.validatorSystem, index, vote).Ok?
    && var validator := GetValidator(c.validatorSystem, index, vote).value;
       && (validator.lastDeltaEpoch == now.epoch ==> 0 < c.stakeSystem.extraRuns)
       && now.slot >= SatSub(now.lastSlot, c.stakeSystem.slots)
       && Cranks.ReservePlan(c, validator, StakeDelta(c)) == Ok(Cranks.Part(amount))
  }

  lemma StakeRunsShort(c: Chain, now: Clock, index: nat, validator: ValidatorRecord, amount: nat, newKey: Key,
                       rent: nat)
    requires index < |c.validatorSystem.list|
    ensures var r := Cranks.Stake(c, now, index, validator, amount, newKey, rent);
            && (r == Err(ReserveShort) <==> c.reserve < amount)
            && (r == Err(ReserveUnderflow) <==> c.available < amount <= c.reserve)
  {
  }

  lemma StakeByPlanRunsShort(c: Chain, now: Clock, index: nat, validator: ValidatorRecord, delta: nat, newKey: Key,
                             rent: nat)
    requires index < |c.validatorSystem.list|
    ensures var r, plan := Cranks.StakeByPlan(c, now, index, validator, delta, newKey, rent),
              Cranks.ReservePlan(c, validator, delta);
            && (r == Err(ReserveShort) <==> plan.Ok? && plan.value.Part? && c.reserve < plan.value.amount)
            && (r == Err(ReserveUnderflow) <==>
                  plan.Ok? && plan.value.Part? && c.available < plan.value.amount <= c.reserve)
  {
    var plan := Cranks.ReservePlan(c, validator, delta);
    if plan.Ok? && plan.value.Part? {
      StakeRunsShort(c, now, index, validator, plan.value.amount, newKey, rent);
    }
  }

  /** What staking the reserve ends in on either balance, if anything. */
  predicate RunsShort(r: Result<Chain>) {
    r == Err(ReserveShort) || r == Err(ReserveUnderflow)
  }

  lemma ShortStakingWouldStake(c: Chain, now: Clock, index: nat, vote: Key, newKey: Key, rent: nat)
    requires RunsShort(Cranks.StakeReserve(c, now, index, vote, newKey, rent))
    ensures exists amount: nat :: WouldStake(c, now, index, vote, newKey, amount)
  {
    var delta, validator := StakeDelta(c), c.validatorSystem.list[index];
    if validator.lastDeltaEpoch != now.epoch {
      StakeByPlanRunsShort(c, now, index, validator, delta, newKey, rent);
    } else {
      StakeByPlanRunsShort(Cranks.UseExtraRun(c), now, index, validator, delta, newKey, rent);
    }
    assert WouldStake(c, now, index, vote, newKey, Cranks.ReservePlan(c, validator, delta).value.amount);
  }

  /** What would be staked fails on the real balance when that does not cover it, and on the virtual balance
      when only the real one does. */
  lemma WouldStakeRunsShort(c: Chain, now: Clock, index: nat, vote: Key, newKey: Key, rent: nat, amount: nat)
    requires WouldStake(c, now, index, vote, newKey, amount)
    ensures var r := Cranks.StakeReserve(c, now, index, vote, newKey, rent);
            && (r == Err(ReserveShort) <==> c.reserve < amount)
            && (r == Err(ReserveUnderflow) <==> c.available < amount <= c.reserve)
  {
    var delta, validator := StakeDelta(c), c.validatorSystem.list[index];
    if validator.lastDeltaEpoch != now.epoch {
      StakeByPlanRunsShort(c, now, index, validator, delta, newKey, rent);
    } else {
      StakeByPlanRunsShort(Cranks.UseExtraRun(c), now, index, validator, delta, newKey, rent);
    }
  }

  /** Staking the reserve fails on the real balance exactly when it would stake an amount that does not cover,
      and on the virtual balance exactly when it would stake one that only the real balance covers. */
  lemma StakeReserveRunsShortExactly(c: Chain, now: Clock, index: nat, vote: Key, newKey: Key, rent: nat)
    ensures Cranks.StakeReserve(c, now, index, vote, newKey, rent) == Err(ReserveShort) <==>
              exists amount: nat :: WouldStake(c, now, index, vote, newKey, amount) && c.reserve < amount
    ensures Cranks.StakeReserve(c, now, index, vote, newKey, rent) == Err(ReserveUnderflow) <==>
              exists amount: nat :: WouldStake(c, now, index, vote, newKey, amount) && c.available < amount <= c.reserve
  {
    if RunsShort(Cranks.StakeReserve(c, now, index, vote, newKey, rent)) {
      ShortStakingWouldStake(c, now, index, vote, newKey, rent);
    }
    forall amount: nat | WouldStake(c, now, index, vote, newKey, amount)
      ensures var r := Cranks.StakeReserve(c, now, index, vote, newKey, rent);
              && (r == Err(ReserveShort) <==> c.reserve < amount)
              && (r == Err(ReserveUnderflow) <==> c.available < amount <= c.reserve)
    {
      WouldStakeRunsShort(c, now, index, vote, newKey, rent, amount);
    }
  }

  // ---------- which runs cannot lead there ----------

  /** The virtual balance is the real one less the rent. */
  predicate Aligned(c: Chain) {
    c.available + c.config.rentExempt == c.reserve
  }

  lemma NewPoolIsAligned(p: InitializeData)
    requires Initialize(p).Ok?
    ensures Aligned(Initialize(p).value)
  {
  }

  ghost predicate KeepsGap(c: Chain, r: Result<Chain>) {
    r.Ok? ==>
      r.value.config.rentExempt == c.config.rentExempt
      && r.value.reserve - r.value.available == c.reserve - c.available
  }

  lemma DepositKeepsGap(c: Chain, lamports: nat, funds: nat)
    ensures KeepsGap(c, Users.Deposit(c, lamports, funds))
  {
  }

  lemma DepositStakeAccountKeepsGap(c: Chain, now: Clock, key: Key, account: StakeAccount, activationEpoch: nat,
                                    index: nat)
    ensures KeepsGap(c, Users.DepositStakeAccount(c, now, key, account, activationEpoch, index))
  {
  }

  lemma WithdrawKeepsGap(c: Chain, stakeIndex: nat, index: nat, msol: nat, funds: nat, key: Key, splitKey: Key,
                         rent: nat, ready: bool)
    ensures KeepsGap(c, Users.WithdrawStakeAccount(c, stakeIndex, index, msol, funds, key, splitKey, rent, ready))
  {
    hide Users.WithdrawStakeAccount;
    if Users.WithdrawStakeAccount(c, stakeIndex, index, msol, funds, key, splitKey, rent, ready).Ok? {
      WithdrawIsHandOut(c, stakeIndex, index, msol, funds, key, splitKey, rent, ready);
    }
  }

  lemma TicketsKeepGap(c: Chain, now: Clock, msol: nat, funds: nat, ticketKey: Key, beneficiary: Key)
    ensures KeepsGap(c, Users.OrderUnstake(c, now, msol, funds, ticketKey, beneficiary))
    ensures KeepsGap(c, Users.Claim(c, now, ticketKey, beneficiary))
  {
  }

  lemma UserKeepsGap(c: Chain, now: Clock, a: Action)
    requires IsUser(a)
    ensures KeepsGap(c, UserStep(c, now, a))
  {
    hide KeepsGap, Users.Deposit, Users.DepositStakeAccount, Users.WithdrawStakeAccount, Users.OrderUnstake,
      Users.Claim;
    match a
    case Deposit(lamports, funds) => DepositKeepsGap(c, lamports, funds);
    case DepositStakeAccount(key, account, activationEpoch, index) =>
      DepositStakeAccountKeepsGap(c, now, key, account, activationEpoch, index);
    case WithdrawStakeAccount(stakeIndex, index, msol, funds, key, splitKey, rent, ready) =>
      WithdrawKeepsGap(c, stakeIndex, index, msol, funds, key, splitKey, rent, ready);
    case OrderUnstake(msol, funds, ticketKey, beneficiary) =>
      TicketsKeepGap(c, now, msol, funds, ticketKey, beneficiary);
    case Claim(ticketKey, receiver) => TicketsKeepGap(c, now, 0, 0, ticketKey, receiver);
  }

  lemma PoolKeepsGap(c: Chain, a: Action)
    requires IsPool(a)
    ensures KeepsGap(c, PoolStep(c, a))
  {
  }

  lemma AdminKeepsGap(c: Chain, a: Action)
    requires IsAdmin(a)
    ensures KeepsGap(c, AdminStep(c, a))
  {
  }

  lemma OutsideKeepsGap(c: Chain, a: Action)
    requires Outside(a) && !a.GiftToReserve?
    ensures KeepsGap(c, OutsideStep(c, a))
  {
  }

  /** An update aligns the balances, whatever they were, and a merge keeps them aligned. */
  lemma UpkeepAligns(c: Chain, now: Clock, a: Action)
    requires Inv(c) && (IsUpdate(a) || (a.MergeStakes? && Aligned(c))) && UpkeepStep(c, now, a).Ok?
    ensures Aligned(UpkeepStep(c, now, a).value)
  {
    match a
    case UpdateActive(stakeIndex, index, key, ready) => UpdateActiveIsSound(c, now, stakeIndex, index, key, ready);
    case UpdateDeactivated(stakeIndex, key, ready) => UpdateDeactivatedIsSound(c, stakeIndex, key, ready);
    case MergeStakes(destIndex, sourceIndex, index, destKey, sourceKey, extra) =>
      MergeStakesIsSound(c, destIndex, sourceIndex, index, destKey, sourceKey, extra);
  }

  lemma UpdateAligns(c: Chain, e: Event)
    requires Inv(c) && IsUpdate(e.action) && Step(c, e).Ok?
    ensures Aligned(Step(c, e).value)
  {
    UpkeepAligns(c, e.now, e.action);
  }

  /** Only lamports sent to the reserve from outside part the two balances. */
  lemma StepKeepsAligned(c: Chain, e: Event)
    requires Inv(c) && Aligned(c) && !e.action.GiftToReserve?
    ensures Aligned(Exec(c, e))
  {
    var a := e.action;
    if Step(c, e).Ok? {
      if Outside(a) {
        OutsideKeepsGap(c, a);
      } else if IsUser(a) {
        UserKeepsGap(c, e.now, a);
      } else if IsPool(a) {
        PoolKeepsGap(c, a);
      } else if IsRebalance(a) {
        RebalanceConserves(c, e.now, a);
      } else if IsAdmin(a) {
        AdminKeepsGap(c, a);
      } else {
        UpkeepAligns(c, e.now, a);
      }
    }
  }

  ghost predicate NoGifts(events: seq<Event>) {
    forall i :: 0 <= i < |events| ==> !events[i].action.GiftToReserve?
  }

  /** From any state with aligned balances, as an update leaves, they stay aligned until the next gift. */
  lemma {:induction false} RunKeepsAligned(c: Chain, events: seq<Event>)
    requires Inv(c) && Aligned(c) && NoGifts(events)
    ensures Aligned(Run(c, events))
  {
    if events != [] {
      var most := events[..|events| - 1];
      RunKeepsAligned(c, most);
      RunKeepsInv(c, most);
      StepKeepsAligned(Run(c, most), events[|events| - 1]);
    }
  }

  /** And so from creation. */
  lemma GiftFreeRunsAreAligned(p: InitializeData, events: seq<Event>)
    requires Initialize(p).Ok? && NoGifts(events)
    ensures Aligned(Run(Initialize(p).value, events))
  {
    NewPoolIsAligned(p);
    InitialState(p);
    RunKeepsAligned(Initialize(p).value, events);
  }

  /** While what cools down for delayed unstakes is owed to tickets anyway, the reserve covers what staking
      takes out of it. */
  lemma OwedCoolingNeverShort(c: Chain, now: Clock, index: nat, vote: Key, newKey: Key, rent: nat)
    requires Inv(c) && c.stakeSystem.delayedCooling <= c.ticketBalance
    ensures var r := Cranks.StakeReserve(c, now, index, vote, newKey, rent);
            r != Err(ReserveShort) && (Aligned(c) ==> r != Err(ReserveUnderflow))
  {
    StakeReserveRunsShortExactly(c, now, index, vote, newKey, rent);
  }

  /** With aligned balances a claim never fails on either balance, and neither does staking the reserve
      while what cools down for delayed unstakes is owed to tickets anyway. */
  lemma AlignedNeverRunsShort(c: Chain, e: Event)
    requires Inv(c) && Aligned(c)
    ensures e.action.Claim? ==> !RunsShort(Step(c, e))
    ensures e.action.StakeReserve? && c.stakeSystem.delayedCooling <= c.ticketBalance ==> !RunsShort(Step(c, e))
  {
    var a := e.action;
    if a.StakeReserve? && c.stakeSystem.delayedCooling <= c.ticketBalance {
      OwedCoolingNeverShort(c, e.now, a.index, a.vote, a.newKey, a.rent);
    }
  }

  // ---------- nothing else fails on it ----------

  lemma DepositNeverShort(c: Chain, lamports: nat, funds: nat)
    ensures !RunsShort(Users.Deposit(c, lamports, funds))
  {
  }

  lemma DepositStakeAccountNeverShort(c: Chain, now: Clock, key: Key, account: StakeAccount, activationEpoch: nat,
                                      index: nat)
    ensures !RunsShort(Users.DepositStakeAccount(c, now, key, account, activationEpoch, index))
  {
  }

  lemma WithdrawNeverShort(c: Chain, stakeIndex: nat, index: nat, msol: nat, funds: nat, key: Key, splitKey: Key,
                           rent: nat, ready: bool)
    ensures !RunsShort(Users.WithdrawStakeAccount(c, stakeIndex, index, msol, funds, key, splitKey, rent, ready))
  {
  }

  lemma OrderNeverShort(c: Chain, now: Clock, msol: nat, funds: nat, ticketKey: Key, beneficiary: Key)
    ensures !RunsShort(Users.OrderUnstake(c, now, msol, funds, ticketKey, beneficiary))
  {
  }

  lemma ClaimNeverShort(c: Chain, now: Clock, ticketKey: Key, receiver: Key)
    ensures Users.Claim(c, now, ticketKey, receiver) != Err(ReserveShort)
  {
  }

  lemma UserNeverShort(c: Chain, now: Clock, a: Action)
    requires IsUser(a)
    ensures RunsShort(UserStep(c, now, a)) ==> a.Claim? && UserStep(c, now, a) == Err(ReserveUnderflow)
  {
    match a
    case Deposit(lamports, funds) => DepositNeverShort(c, lamports, funds);
    case DepositStakeAccount(key, account, activationEpoch, index) =>
      DepositStakeAccountNeverShort(c, now, key, account, activationEpoch, index);
    case WithdrawStakeAccount(stakeIndex, index, msol, funds, key, splitKey, rent, ready) =>
      WithdrawNeverShort(c, stakeIndex, index, msol, funds, key, splitKey, rent, ready);
    case OrderUnstake(msol, funds, ticketKey, beneficiary) =>
      OrderNeverShort(c, now, msol, funds, ticketKey, beneficiary);
    case Claim(ticketKey, receiver) => ClaimNeverShort(c, now, ticketKey, receiver);
  }

  lemma PoolNeverShort(c: Chain, a: Action)
    requires IsPool(a)
    ensures !RunsShort(PoolStep(c, a))
  {
  }

  lemma AdminNeverShort(c: Chain, a: Action)
    requires IsAdmin(a)
    ensures !RunsShort(AdminStep(c, a))
  {
  }

  lemma DeactivateNeverShort(c: Chain, now: Clock, stakeIndex: nat, index: nat, key: Key, splitKey: Key, rent: nat)
    ensures !RunsShort(Cranks.DeactivateStake(c, now, stakeIndex, index, key, splitKey, rent))
  {
  }

  lemma EmergencyNeverShort(c: Chain, now: Clock, stakeIndex: nat, index: nat, key: Key)
    ensures !RunsShort(Cranks.EmergencyUnstake(c, now, stakeIndex, index, key))
  {
  }

  lemma PartialNeverShort(c: Chain, now: Clock, stakeIndex: nat, index: nat, desired: nat, key: Key, splitKey: Key,
                          rent: nat)
    ensures !RunsShort(Cranks.PartialUnstake(c, now, stakeIndex, index, desired, key, splitKey, rent))
  {
  }

  lemma MoveNeverShort(c: Chain, now: Clock, stakeIndex: nat, stake: StakeRecord, i: nat, source: ValidatorRecord,
                       j: nat, dest: ValidatorRecord, amount: nat, splitKey: Key, newKey: Key, rent: nat)
    requires stakeIndex < |c.stakeSystem.list| && i < |c.validatorSystem.list| && j < |c.validatorSystem.list|
    ensures !RunsShort(Cranks.RedelegateWhole(c, now, stakeIndex, stake, i, source, j, dest, newKey, rent))
    ensures !RunsShort(Cranks.RedelegatePart(c, now, stakeIndex, stake, i, source, j, dest, amount, splitKey, newKey,
                                             rent))
  {
  }

  lemma RedelegateNeverShort(c: Chain, now: Clock, stakeIndex: nat, i: nat, j: nat, key: Key, destVote: Key,
                             splitKey: Key, newKey: Key, rent: nat)
    ensures !RunsShort(Cranks.Redelegate(c, now, stakeIndex, i, j, key, destVote, splitKey, newKey, rent))
  {
    var stake, source := GetStake(c.stakeSystem, stakeIndex, key), Get(c.validatorSystem.list, i);
    var dest := GetValidator(c.validatorSystem, j, destVote);
    if stake.Ok? && source.Ok? && dest.Ok? {
      var plan := Cranks.RedelegatePlan(c, stake.value, source.value, dest);
      var amount := if plan.Ok? && plan.value.Part? then plan.value.amount else 0;
      MoveNeverShort(c, now, stakeIndex, stake.value, i, source.value, j, dest.value, amount, splitKey, newKey, rent);
    }
  }

  lemma RebalanceNeverShort(c: Chain, now: Clock, a: Action)
    requires IsRebalance(a) && !a.StakeReserve?
    ensures !RunsShort(RebalanceStep(c, now, a))
  {
    match a
    case DeactivateStake(stakeIndex, index, key, splitKey, rent) =>
      DeactivateNeverShort(c, now, stakeIndex, index, key, splitKey, rent);
    case EmergencyUnstake(stakeIndex, index, key) => EmergencyNeverShort(c, now, stakeIndex, index, key);
    case PartialUnstake(stakeIndex, index, desired, key, splitKey, rent) =>
      PartialNeverShort(c, now, stakeIndex, index, desired, key, splitKey, rent);
    case Redelegate(stakeIndex, i, j, key, destVote, splitKey, newKey, rent) =>
      RedelegateNeverShort(c, now, stakeIndex, i, j, key, destVote, splitKey, newKey, rent);
  }

  /** The rent of a cooled-down account, which comes back out of the reserve, went in with the rest. */
  lemma CloseCooledNeverShort(c: Chain, stakeIndex: nat, stake: StakeRecord, account: StakeAccount)
    requires stakeIndex < |c.stakeSystem.list| && account.rent <= account.lamports
    ensures !RunsShort(Cranks.CloseCooled(c, stakeIndex, stake, account))
  {
    DrainIsFunds(c, stake.account, account);
  }

  lemma FeesNeverShort(c: Chain, lamports: nat, ready: bool)
    ensures !RunsShort(Cranks.MintProtocolFees(c, lamports, ready))
  {
  }

  lemma CooledFeesNeverShort(c: Chain, before: nat, balance: nat, ready: bool)
    ensures !RunsShort(Cranks.CooledFees(c, before, balance, ready))
  {
    if balance >= before {
      FeesNeverShort(c, balance - before, ready);
    }
  }

  lemma BookDeactivatedNeverShort(c: Chain, stakeIndex: nat, stake: StakeRecord, account: StakeAccount, ready: bool)
    requires stakeIndex < |c.stakeSystem.list|
    ensures !RunsShort(Cranks.BookDeactivated(c, stakeIndex, stake, account, ready))
  {
    if account.rent <= account.lamports {
      var balance := account.lamports - account.rent;
      CooledFeesNeverShort(c, stake.lamports, balance, ready);
      CooledFeesIsFunds(c, stake.lamports, balance, ready);
      match Cranks.CooledFees(c, stake.lamports, balance, ready)
      case Err(_) =>
      case Ok(c1) => CloseCooledNeverShort(c1, stakeIndex, stake, account);
    }
  }

  lemma PriceNeverShort(c: Chain)
    ensures !RunsShort(Cranks.UpdatePrice(c)) && Cranks.CheckReserve(c) !in {Fail(ReserveShort), Fail(ReserveUnderflow)}
  {
  }

  lemma UpdateDeactivatedNeverShort(c: Chain, stakeIndex: nat, key: Key, ready: bool)
    ensures !RunsShort(Cranks.UpdateDeactivated(c, stakeIndex, key, ready))
  {
    var c1, found := Cranks.Begin(c), GetStake(c.stakeSystem, stakeIndex, key);
    if found.Ok? && key in c.stakes {
      BookDeactivatedNeverShort(c1, stakeIndex, found.value, c.stakes[key], ready);
      match Cranks.BookDeactivated(c1, stakeIndex, found.value, c.stakes[key], ready)
      case Err(_) =>
      case Ok(c2) => PriceNeverShort(c2);
    }
  }

  lemma BookActiveNeverShort(c: Chain, now: Clock, stakeIndex: nat, stake: StakeRecord, index: nat,
                             validator: ValidatorRecord, account: StakeAccount, ready: bool)
    requires stakeIndex < |c.stakeSystem.list| && index < |c.validatorSystem.list|
    ensures !RunsShort(Cranks.BookActive(c, now, stakeIndex, stake, index, validator, account, ready))
  {
    if account.rent <= account.lamports {
      var extra := SatSub(account.lamports - account.rent, account.stake);
      ExtraNeverShort(c, stake.account, extra, ready);
      match Cranks.TakeExtra(c, stake.account, extra, ready)
      case Err(_) =>
      case Ok(c1) => ObservingNeverShort(c1, index, validator, stake.lamports, account.stake, ready);
    }
  }

  lemma ExtraNeverShort(c: Chain, key: Key, extra: nat, ready: bool)
    ensures !RunsShort(Cranks.TakeExtra(c, key, extra, ready))
  {
  }

  lemma ObservingNeverShort(c: Chain, index: nat, validator: ValidatorRecord, before: nat, delegated: nat, ready: bool)
    requires index < |c.validatorSystem.list|
    ensures !RunsShort(Cranks.ObserveDelegation(c, index, validator, before, delegated, ready))
  {
  }

  lemma UpdateActiveNeverShort(c: Chain, now: Clock, stakeIndex: nat, index: nat, key: Key, ready: bool)
    ensures !RunsShort(Cranks.UpdateActive(c, now, stakeIndex, index, key, ready))
  {
    var c1, found, listed := Cranks.Begin(c), GetStake(c.stakeSystem, stakeIndex, key),
      Get(c.validatorSystem.list, index);
    if found.Ok? && listed.Ok? && key in c.stakes {
      BookActiveNeverShort(c1, now, stakeIndex, found.value, index, listed.value, c.stakes[key], ready);
      match Cranks.BookActive(c1, now, stakeIndex, found.value, index, listed.value, c.stakes[key], ready)
      case Err(_) =>
      case Ok(c2) => PriceNeverShort(c2);
    }
  }

  lemma MergeNeverShort(c: Chain, destIndex: nat, sourceIndex: nat, index: nat, destKey: Key, sourceKey: Key,
                        extra: nat)
    ensures !RunsShort(Cranks.MergeStakes(c, destIndex, sourceIndex, index, destKey, sourceKey, extra))
  {
  }

  lemma UpkeepNeverShort(c: Chain, now: Clock, a: Action)
    requires IsUpdate(a) || a.MergeStakes?
    ensures !RunsShort(UpkeepStep(c, now, a))
  {
    match a
    case UpdateActive(stakeIndex, index, key, ready) => UpdateActiveNeverShort(c, now, stakeIndex, index, key, ready);
    case UpdateDeactivated(stakeIndex, key, ready) => UpdateDeactivatedNeverShort(c, stakeIndex, key, ready);
    case MergeStakes(destIndex, sourceIndex, index, destKey, sourceKey, extra) =>
      MergeNeverShort(c, destIndex, sourceIndex, index, destKey, sourceKey, extra);
  }

  /** Only staking ever asks the real reserve for more than it has, and only staking and claims the virtual
      one; the rent that `update_deactivated` sends out of both is always there. */
  lemma OnlyClaimsAndStakingRunShort(c: Chain, e: Event)
    ensures Step(c, e) == Err(ReserveShort) ==> e.action.StakeReserve?
    ensures Step(c, e) == Err(ReserveUnderflow) ==> e.action.Claim? || e.action.StakeReserve?
  {
    var a := e.action;
    if IsUser(a) {
      UserNeverShort(c, e.now, a);
    } else if IsPool(a) {
      PoolNeverShort(c, a);
    } else if IsRebalance(a) && !a.StakeReserve? {
      RebalanceNeverShort(c, e.now, a);
    } else if IsAdmin(a) {
      AdminNeverShort(c, a);
    } else if IsUpdate(a) || a.MergeStakes? {
      UpkeepNeverShort(c, e.now, a);
    }
  }
}
