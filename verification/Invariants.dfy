/** The invariant holds in every state a run can reach from a newly created pool, and no instruction
    run in such a state fails on its own books. */
module Invariants {
  import opened Results
  import opened Sums
  import opened Records
  import opened State
  import opened Admin
  import opened Ledger
  import opened Machine
  import Users
  import Pools
  import opened CrankBooks
  import opened UpdateBooks
  import opened UserBooks

  lemma InitialState(p: InitializeData)
    requires Initialize(p).Ok?
    ensures Inv(Initialize(p).value)
  {
  }

  // ---------- tickets, real balances and parameters ----------

  /** The invariant besides the books. */
  ghost predicate Funds(c: Chain) {
    TicketTotals(c) && Backed(c) && Configured(c)
  }

  lemma DepositKeepsFunds(c: Chain, lamports: nat, funds: nat)
    requires Funds(c) && Users.Deposit(c, lamports, funds).Ok?
    ensures Funds(Users.Deposit(c, lamports, funds).value)
  {
  }

  lemma DepositStakeAccountKeepsFunds(c: Chain, now: Clock, key: Key, account: StakeAccount, activationEpoch: nat,
                                      index: nat)
    requires Funds(c) && Users.DepositStakeAccount(c, now, key, account, activationEpoch, index).Ok?
    ensures Funds(Users.DepositStakeAccount(c, now, key, account, activationEpoch, index).value)
  {
  }

  lemma HandOutKeepsFunds(c: Chain, stakeIndex: nat, stake: StakeRecord, index: nat, validator: ValidatorRecord,
                          lamports: nat,
                          burned: nat, splitKey: Key, rent: nat)
    requires Funds(c) && stakeIndex < |c.stakeSystem.list| && index < |c.validatorSystem.list|
             && lamports <= stake.lamports
    requires c.msolLeg + burned <= c.msolMint
    requires Users.HandOut(c, stakeIndex, stake, index, validator, lamports, burned, splitKey, rent).Ok?
    ensures Funds(Users.HandOut(c, stakeIndex, stake, index, validator, lamports, burned, splitKey, rent).value)
  {
  }

  /** A successful withdrawal hands out the split lamports and burns what is left after the fees. */
  lemma WithdrawIsHandOut(c: Chain, stakeIndex: nat, index: nat, msol: nat, funds: nat, key: Key, splitKey: Key,
                          rent: nat, ready: bool)
    requires Users.WithdrawStakeAccount(c, stakeIndex, index, msol, funds, key, splitKey, rent, ready).Ok?
    ensures stakeIndex < |c.stakeSystem.list| && index < |c.validatorSystem.list| && c.msolLeg + msol <= c.msolMint
    ensures Users.SplitLamports(c, msol).Ok?
            && Users.SplitLamports(c, msol).value <= c.stakeSystem.list[stakeIndex].lamports
    ensures var lamports := Users.SplitLamports(c, msol).value;
            var fees := Users.WithdrawFees(c, msol, lamports, ready);
            && fees.Ok? && fees.value <= msol
            && Users.WithdrawStakeAccount(c, stakeIndex, index, msol, funds, key, splitKey, rent, ready)
            == Users.HandOut(c, stakeIndex, c.stakeSystem.list[stakeIndex], index, c.validatorSystem.list[index],
                             lamports,
                             msol - fees.value, splitKey, rent)
  {
  }

  lemma WithdrawStakeAccountKeepsFunds(c: Chain, stakeIndex: nat, index: nat, msol: nat, funds: nat, key: Key,
                                       splitKey: Key,
                                       rent: nat, ready: bool)
    requires Funds(c) && Users.WithdrawStakeAccount(c, stakeIndex, index, msol, funds, key, splitKey, rent, ready).Ok?
    ensures Funds(Users.WithdrawStakeAccount(c, stakeIndex, index, msol, funds, key, splitKey, rent, ready).value)
  {
    WithdrawIsHandOut(c, stakeIndex, index, msol, funds, key, splitKey, rent, ready);
    var lamports := Users.SplitLamports(c, msol).value;
    var fees := Users.WithdrawFees(c, msol, lamports, ready).value;
    HandOutKeepsFunds(c, stakeIndex, c.stakeSystem.list[stakeIndex], index, c.validatorSystem.list[index], lamports,
                      msol - fees, splitKey, rent);
  }

  lemma OrderUnstakeKeepsFunds(c: Chain, now: Clock, msol: nat, funds: nat, ticketKey: Key, beneficiary: Key)
    requires Funds(c) && Users.OrderUnstake(c, now, msol, funds, ticketKey, beneficiary).Ok?
    ensures Funds(Users.OrderUnstake(c, now, msol, funds, ticketKey, beneficiary).value)
  {
    var c' := Users.OrderUnstake(c, now, msol, funds, ticketKey, beneficiary).value;
    TicketSumAdd(c.tickets, ticketKey, c'.tickets[ticketKey]);
  }

  lemma PaidKeepsFunds(c: Chain, ticketKey: Key)
    requires Funds(c) && ticketKey in c.tickets && c.tickets[ticketKey].lamports <= c.reserve
    requires Users.PayTicket(c, ticketKey, c.tickets[ticketKey].lamports).Ok?
    ensures Funds(Users.PayTicket(c, ticketKey, c.tickets[ticketKey].lamports).value)
  {
    TicketSumRemove(c.tickets, ticketKey);
  }

  lemma ClaimKeepsFunds(c: Chain, now: Clock, ticketKey: Key, receiver: Key)
    requires Funds(c) && Users.Claim(c, now, ticketKey, receiver).Ok?
    ensures Funds(Users.Claim(c, now, ticketKey, receiver).value)
  {
    PaidKeepsFunds(c, ticketKey);
  }

  lemma LiquidUnstakeKeepsFunds(c: Chain, msol: nat, funds: nat, ready: bool)
    requires Funds(c) && Pools.LiquidUnstake(c, msol, funds, ready).Ok?
    ensures Funds(Pools.LiquidUnstake(c, msol, funds, ready).value)
  {
  }

  lemma AddLiquidityKeepsFunds(c: Chain, lamports: nat, funds: nat)
    requires Funds(c) && Pools.AddLiquidity(c, lamports, funds).Ok?
    ensures Funds(Pools.AddLiquidity(c, lamports, funds).value)
  {
  }

  lemma RemoveLiquidityKeepsFunds(c: Chain, tokens: nat, funds: nat)
    requires Funds(c) && Pools.RemoveLiquidity(c, tokens, funds).Ok?
    ensures Funds(Pools.RemoveLiquidity(c, tokens, funds).value)
  {
    ShareAtMost(tokens, c.solLeg - c.config.rentExempt, c.lpMint);
  }

  // ---------- one step ----------

  ghost predicate Kept(r: Result<Chain>) {
    Sound(r) && (r.Ok? ==> Funds(r.value))
  }

  lemma UserStepIsSound(c: Chain, now: Clock, a: Action)
    requires Inv(c) && IsUser(a)
    ensures Kept(UserStep(c, now, a))
  {
    var ok := UserStep(c, now, a).Ok?;
    match a
    case Deposit(lamports, funds) =>
      DepositIsSound(c, lamports, funds);
      if ok { DepositKeepsFunds(c, lamports, funds); }
    case DepositStakeAccount(key, account, activationEpoch, index) =>
      DepositStakeAccountIsSound(c, now, key, account, activationEpoch, index);
      if ok { DepositStakeAccountKeepsFunds(c, now, key, account, activationEpoch, index); }
    case WithdrawStakeAccount(stakeIndex, index, msol, funds, key, splitKey, rent, ready) =>
      WithdrawStakeAccountIsSound(c, stakeIndex, index, msol, funds, key, splitKey, rent, ready);
      if ok { WithdrawStakeAccountKeepsFunds(c, stakeIndex, index, msol, funds, key, splitKey, rent, ready); }
    case OrderUnstake(msol, funds, ticketKey, beneficiary) =>
      OrderUnstakeIsSound(c, now, msol, funds, ticketKey, beneficiary);
      if ok { OrderUnstakeKeepsFunds(c, now, msol, funds, ticketKey, beneficiary); }
    case Claim(ticketKey, receiver) =>
      ClaimIsSound(c, now, ticketKey, receiver);
      if ok { ClaimKeepsFunds(c, now, ticketKey, receiver); }
  }

  lemma PoolStepIsSound(c: Chain, a: Action)
    requires Inv(c) && IsPool(a)
    ensures Kept(PoolStep(c, a))
  {
    var ok := PoolStep(c, a).Ok?;
    match a
    case LiquidUnstake(msol, funds, ready) =>
      LiquidUnstakeIsSound(c, msol, funds, ready);
      if ok { LiquidUnstakeKeepsFunds(c, msol, funds, ready); }
    case AddLiquidity(lamports, funds) =>
      AddLiquidityIsSound(c, lamports, funds);
      if ok { AddLiquidityKeepsFunds(c, lamports, funds); }
    case RemoveLiquidity(tokens, funds) =>
      RemoveLiquidityIsSound(c, tokens, funds);
      if ok { RemoveLiquidityKeepsFunds(c, tokens, funds); }
  }

  /** Staking the reserve, the three unstakes and a redelegation are sound, leave the lamports under
      control exactly unchanged, and touch no token, ticket or fee. */
  lemma RebalanceConserves(c: Chain, now: Clock, a: Action)
    requires Inv(c) && IsRebalance(a)
    ensures Rebalances(c, RebalanceStep(c, now, a))
  {
    match a
    case StakeReserve(index, vote, newKey, rent) => StakeReserveIsSound(c, now, index, vote, newKey, rent);
    case DeactivateStake(stakeIndex, index, key, splitKey, rent) =>
      DeactivateStakeIsSound(c, now, stakeIndex, index, key, splitKey, rent);
    case EmergencyUnstake(stakeIndex, index, key) => EmergencyUnstakeIsSound(c, now, stakeIndex, index, key);
    case PartialUnstake(stakeIndex, index, desired, key, splitKey, rent) =>
      PartialUnstakeIsSound(c, now, stakeIndex, index, desired, key, splitKey, rent);
    case Redelegate(stakeIndex, sourceIndex, destIndex, key, destVote, splitKey, newKey, rent) =>
      RedelegateIsSound(c, now, stakeIndex, sourceIndex, destIndex, key, destVote, splitKey, newKey, rent);
  }

  lemma SameFundsKeepsFunds(c: Chain, c': Chain)
    requires Funds(c) && SameFunds(c, c')
    ensures Funds(c')
  {
  }

  lemma UpdatedKeepsFunds(c: Chain, c': Chain)
    requires Funds(c) && Updated(c, c')
    ensures Funds(c')
  {
  }

  lemma RebalanceStepIsSound(c: Chain, now: Clock, a: Action)
    requires Inv(c) && IsRebalance(a)
    ensures Kept(RebalanceStep(c, now, a))
  {
    RebalanceConserves(c, now, a);
    if RebalanceStep(c, now, a).Ok? {
      SameFundsKeepsFunds(c, RebalanceStep(c, now, a).value);
    }
  }

  lemma UpkeepStepIsSound(c: Chain, now: Clock, a: Action)
    requires Inv(c) && (IsUpdate(a) || a.MergeStakes?)
    ensures Kept(UpkeepStep(c, now, a))
  {
    var r := UpkeepStep(c, now, a);
    match a
    case MergeStakes(destIndex, sourceIndex, index, destKey, sourceKey, extra) =>
      MergeStakesIsSound(c, destIndex, sourceIndex, index, destKey, sourceKey, extra);
      if r.Ok? { SameFundsKeepsFunds(c, r.value); }
    case UpdateActive(stakeIndex, index, key, ready) =>
      UpdateActiveIsSound(c, now, stakeIndex, index, key, ready);
      if r.Ok? { UpdatedKeepsFunds(c, r.value); }
    case UpdateDeactivated(stakeIndex, key, ready) =>
      UpdateDeactivatedIsSound(c, stakeIndex, key, ready);
      if r.Ok? { UpdatedKeepsFunds(c, r.value); }
  }

  lemma ValidatorStepIsSound(c: Chain, a: Action)
    requires Inv(c) && (a.AddValidator? || a.RemoveValidator? || a.SetValidatorScore?)
    ensures Kept(AdminStep(c, a))
  {
    match a {
      case AddValidator(vote, score, bump) => AddValidatorIsSound(c, vote, score, bump);
      case RemoveValidator(index, vote) => RemoveValidatorIsSound(c, index, vote);
      case SetValidatorScore(index, vote, score) => SetValidatorScoreIsSound(c, index, vote, score);
    }
    if AdminStep(c, a).Ok? {
      SameFundsKeepsFunds(c, AdminStep(c, a).value);
    }
  }

  lemma ConfigIsSound(c: Chain, p: ConfigParams)
    requires Inv(c)
    ensures Kept(Admin.ConfigMarinade(c, p))
  {
  }

  lemma LpIsSound(c: Chain, minFee: Option<nat>, maxFee: Option<nat>, target: Option<nat>, treasuryCut: Option<nat>)
    requires Inv(c)
    ensures Kept(Admin.ConfigLp(c, minFee, maxFee, target, treasuryCut))
  {
  }

  lemma SwitchIsSound(c: Chain, extraRuns: nat)
    requires Inv(c)
    ensures Kept(Admin.ConfigValidatorSystem(c, extraRuns)) && Kept(Admin.Pause(c)) && Kept(Admin.Resume(c))
  {
  }

  lemma AdminStepIsSound(c: Chain, a: Action)
    requires Inv(c) && IsAdmin(a)
    ensures Kept(AdminStep(c, a))
  {
    if a.AddValidator? || a.RemoveValidator? || a.SetValidatorScore? {
      ValidatorStepIsSound(c, a);
    } else if a.ConfigMarinade? {
      ConfigIsSound(c, a.params);
    } else if a.ConfigLp? {
      LpIsSound(c, a.minFee, a.maxFee, a.target, a.treasuryCut);
    } else {
      SwitchIsSound(c, if a.ConfigValidatorSystem? then a.extraRuns else 0);
    }
  }

  lemma StakeAccountChangesKeepsBooks(c: Chain, key: Key, stake: nat, lamports: nat)
    requires Books(c) && key in c.stakes
    ensures Books(c.(stakes := c.stakes[key := c.stakes[key].(stake := stake, lamports := lamports)]))
  {
    var c' := c.(stakes := c.stakes[key := c.stakes[key].(stake := stake, lamports := lamports)]);
    forall bucket
      ensures Posted(c'.stakeSystem.list, c'.stakes, bucket) == Booked(c', bucket)
    {
      AgreeAt(c, bucket);
      SumSame(c.stakeSystem.list, InBucket(c.stakes, bucket), c.stakeSystem.list, InBucket(c'.stakes, bucket));
    }
  }

  lemma GiftIsSound(c: Chain, a: Action)
    requires Inv(c) && Outside(a) && !a.StakeAccountChanges?
    ensures Kept(OutsideStep(c, a))
  {
  }

  lemma OutsideStepIsSound(c: Chain, a: Action)
    requires Inv(c) && Outside(a)
    ensures Kept(OutsideStep(c, a))
  {
    if !a.StakeAccountChanges? {
      GiftIsSound(c, a);
    } else if a.key in c.stakes {
      StakeAccountChangesKeepsBooks(c, a.key, a.stake, a.lamports);
      SameFundsKeepsFunds(c, OutsideStep(c, a).value);
    }
  }

  lemma StepKeeps(c: Chain, e: Event)
    requires Inv(c)
    ensures Kept(Step(c, e))
  {
    hide Inv, Kept, OutsideStep, UserStep, PoolStep, RebalanceStep, AdminStep, UpkeepStep;
    var a := e.action;
    if Outside(a) {
      OutsideStepIsSound(c, a);
    } else if IsUser(a) {
      UserStepIsSound(c, e.now, a);
    } else if IsPool(a) {
      PoolStepIsSound(c, a);
    } else if IsRebalance(a) {
      RebalanceStepIsSound(c, e.now, a);
    } else if IsAdmin(a) {
      AdminStepIsSound(c, a);
    } else {
      UpkeepStepIsSound(c, e.now, a);
    }
  }

  /** Every step keeps the invariant, and none fails on a subtraction from a record, a balance or a total,
      other than that from the virtual reserve balance, nor on the asserts of the update and unstake cranks. */
  lemma StepIsSound(c: Chain, e: Event)
    requires Inv(c)
    ensures Step(c, e) != Err(BalanceUnderflow) && Step(c, e) != Err(AssertFailed)
    ensures Inv(Exec(c, e))
  {
    StepKeeps(c, e);
  }

  // ---------- runs ----------

  lemma {:induction false} RunKeepsInv(c: Chain, events: seq<Event>)
    requires Inv(c)
    ensures Inv(Run(c, events))
  {
    if events != [] {
      RunKeepsInv(c, events[..|events| - 1]);
      StepIsSound(Run(c, events[..|events| - 1]), events[|events| - 1]);
    }
  }

  /** A state of some run of a newly created pool. */
  ghost predicate Reachable(c: Chain) {
    exists p: InitializeData, events: seq<Event> :: Initialize(p).Ok? && c == Run(Initialize(p).value, events)
  }

  /** In every reachable state the books agree, tickets add up, the reserve is backed and the
      configuration is in range. */
  lemma ReachableInv(c: Chain)
    requires Reachable(c)
    ensures Inv(c)
  {
    var p: InitializeData, events: seq<Event> :| Initialize(p).Ok? && c == Run(Initialize(p).value, events);
    InitialState(p);
    RunKeepsInv(Initialize(p).value, events);
  }

  /** The same of any instruction run in a state the pool can reach. */
  lemma ReachableNeverUnderflows(c: Chain, e: Event)
    requires Reachable(c)
    ensures Step(c, e) != Err(BalanceUnderflow) && Step(c, e) != Err(AssertFailed)
  {
    ReachableInv(c);
    StepIsSound(c, e);
  }
}
