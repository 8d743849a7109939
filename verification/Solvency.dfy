/** Runs in which no update sees a slash never go under water: open tickets are covered by what is
    under control, every mSOL is backed by at least one lamport, and the stored price never drops
    below one. */
module Solvency {
  import opened Results
  import opened Calc
  import opened Records
  import opened State
  import opened Admin
  import opened Ledger
  import opened Machine
  import Cranks
  import Users
  import opened CrankBooks
  import opened Invariants
  import opened Price
  import opened Withdrawals

  ghost predicate Solvent(c: Chain) {
    && c.ticketBalance <= Control(c)
    && c.msolSupply <= Virtual(c)
    && PRICE_DENOMINATOR <= c.msolPrice
  }

  /** A price that did not fall keeps at least one lamport behind every mSOL. */
  lemma PriceKeepsBacking(v: nat, s: nat, v': nat, s': nat)
    requires 0 < s <= v && v * s' <= v' * s
    ensures s' <= v'
  {
    MulMono(s, v, s');
    CancelFactor(s', v', s);
  }

  lemma DepositKeepsSolvent(c: Chain, lamports: nat, funds: nat)
    requires Backed(c) && Solvent(c) && Users.Deposit(c, lamports, funds).Ok?
    ensures Solvent(Users.Deposit(c, lamports, funds).value)
  {
    var c' := Users.Deposit(c, lamports, funds).value;
    DepositEffect(c, lamports, funds);
    if c.msolSupply > 0 {
      DepositKeepsPrice(c, lamports, funds);
      PriceKeepsBacking(Virtual(c), c.msolSupply, Virtual(c'), c'.msolSupply);
    }
  }

  lemma DepositStakeAccountKeepsSolvent(c: Chain, now: Clock, key: Key, account: StakeAccount, activationEpoch: nat,
                                        index: nat)
    requires Solvent(c) && Users.DepositStakeAccount(c, now, key, account, activationEpoch, index).Ok?
    ensures Solvent(Users.DepositStakeAccount(c, now, key, account, activationEpoch, index).value)
  {
    DepositStakeAccountEffect(c, now, key, account, activationEpoch, index);
    MintedShares(c, account.stake);
  }

  lemma OrderUnstakeKeepsSolvent(c: Chain, now: Clock, msol: nat, funds: nat, ticketKey: Key, beneficiary: Key)
    requires Backed(c) && Solvent(c) && Users.OrderUnstake(c, now, msol, funds, ticketKey, beneficiary).Ok?
    requires c.config.delayedFee <= MAX_BP_CENTS
    ensures Solvent(Users.OrderUnstake(c, now, msol, funds, ticketKey, beneficiary).value)
  {
    var c' := Users.OrderUnstake(c, now, msol, funds, ticketKey, beneficiary).value;
    if c.msolSupply > 0 {
      TicketWorth(c, msol);
      OrderUnstakeKeepsPrice(c, now, msol, funds, ticketKey, beneficiary);
      PriceKeepsBacking(Virtual(c), c.msolSupply, Virtual(c'), c'.msolSupply);
    } else {
      PortionAtMost(0, c.config.delayedFee, MAX_BP_CENTS);
    }
  }

  /** Handing out lamports for shares priced by the floor keeps the lamports at least as many. */
  lemma FlooredBurnKeepsBacking(v: nat, s: nat, lamports: nat, burned: nat)
    requires 0 < s <= v && lamports <= v && burned <= s && lamports * s < burned * v + v
    ensures s - burned <= v - lamports
  {
    // burned + 1 > lamports * s / v >= lamports - (v - s)
    var slack := v - s;
    assert lamports * s == lamports * v - lamports * slack;
    MulMono(lamports, v, slack);
    assert (lamports - slack) * v == lamports * v - v * slack;
    assert lamports * slack <= v * slack;
    assert (burned + 1) * v == burned * v + v;
    CancelStrict(lamports - slack, burned + 1, v);
  }

  lemma CoveredBurnKeepsSolvent(c: Chain, lamports: nat, burned: nat, c': Chain)
    requires Solvent(c) && 0 < c.msolSupply && burned <= c.msolSupply && lamports <= Virtual(c)
    requires lamports * c.msolSupply < burned * Virtual(c) + Virtual(c)
    requires Control(c') == Control(c) - lamports && c'.ticketBalance == c.ticketBalance && c'.msolPrice == c.msolPrice
    requires c'.msolSupply == c.msolSupply - burned
    ensures Solvent(c')
  {
    FlooredBurnKeepsBacking(Virtual(c), c.msolSupply, lamports, burned);
  }

  lemma WithdrawnKeepsSolvent(c: Chain, msol: nat, ready: bool, c': Chain)
    requires Solvent(c) && Withdrawn(c, msol, ready, c') && c.config.withdrawFee <= MAX_WITHDRAW_STAKE_ACCOUNT_FEE
    ensures Solvent(c')
  {
    WithdrawNeedsValue(c, msol, ready, c');
    BurnCovers(c, msol, ready);
    CoveredBurnKeepsSolvent(c, Users.SplitLamports(c, msol).value, c.msolSupply - c'.msolSupply, c');
  }

  lemma WithdrawKeepsSolvent(c: Chain, stakeIndex: nat, index: nat, msol: nat, funds: nat, key: Key, splitKey: Key,
                             rent: nat, ready: bool)
    requires Inv(c) && Solvent(c)
    requires Users.WithdrawStakeAccount(c, stakeIndex, index, msol, funds, key, splitKey, rent, ready).Ok?
    ensures Solvent(Users.WithdrawStakeAccount(c, stakeIndex, index, msol, funds, key, splitKey, rent, ready).value)
  {
    WithdrawEffect(c, stakeIndex, index, msol, funds, key, splitKey, rent, ready);
    WithdrawnKeepsSolvent(c, msol, ready, Users.WithdrawStakeAccount(c, stakeIndex, index, msol, funds, key, splitKey,
                                                                     rent, ready).value);
  }

  /** The price an update stores is at least one lamport per mSOL. */
  lemma StoredPrice(c: Chain)
    requires c.msolSupply <= Virtual(c) && MsolToSol(c, PRICE_DENOMINATOR).Ok?
    ensures PRICE_DENOMINATOR <= MsolToSol(c, PRICE_DENOMINATOR).value
  {
    if c.msolSupply > 0 {
      var v, s, d := Virtual(c), c.msolSupply, PRICE_DENOMINATOR;
      FloorBounds(d, v, s);
      MulMono(s, v, d);
      var p := MsolToSol(c, d).value;
      assert (p + 1) * s == p * s + s;
      CancelStrict(d, p + 1, s);
    }
  }

  lemma UpdateKeepsSolvent(c: Chain, earned: nat, c2: Chain, c': Chain)
    requires Backed(c) && Solvent(c) && Earns(Cranks.Begin(c), earned, c') && Cranks.UpdatePrice(c2) == Ok(c')
    ensures Solvent(c')
  {
    BeginNeverLowers(c);
    StoredPrice(c2);
  }

  lemma UpdateActiveKeepsSolvent(c: Chain, now: Clock, stakeIndex: nat, index: nat, key: Key, ready: bool)
    requires Inv(c) && Solvent(c) && Cranks.UpdateActive(c, now, stakeIndex, index, key, ready).Ok?
    requires !Slashes(c, UpdateActive(stakeIndex, index, key, ready))
    ensures Solvent(Cranks.UpdateActive(c, now, stakeIndex, index, key, ready).value)
  {
    UpdateActiveEarns(c, now, stakeIndex, index, key, ready);
    var c1, c' := Cranks.Begin(c), Cranks.UpdateActive(c, now, stakeIndex, index, key, ready).value;
    var earned: nat :| Earns(c1, earned, c');
    var c2 := Cranks.BookActive(c1, now, stakeIndex, c.stakeSystem.list[stakeIndex], index,
                                c.validatorSystem.list[index], c.stakes[key], ready).value;
    UpdateKeepsSolvent(c, earned, c2, c');
  }

  lemma UpdateDeactivatedKeepsSolvent(c: Chain, stakeIndex: nat, key: Key, ready: bool)
    requires Inv(c) && Solvent(c) && Cranks.UpdateDeactivated(c, stakeIndex, key, ready).Ok?
    requires !Slashes(c, UpdateDeactivated(stakeIndex, key, ready))
    ensures Solvent(Cranks.UpdateDeactivated(c, stakeIndex, key, ready).value)
  {
    UpdateDeactivatedEarns(c, stakeIndex, key, ready);
    var c1, c' := Cranks.Begin(c), Cranks.UpdateDeactivated(c, stakeIndex, key, ready).value;
    var earned: nat :| Earns(c1, earned, c');
    var c2 := Cranks.BookDeactivated(c1, stakeIndex, c.stakeSystem.list[stakeIndex], c.stakes[key], ready).value;
    UpdateKeepsSolvent(c, earned, c2, c');
  }

  lemma UserStepKeepsSolvent(c: Chain, now: Clock, a: Action)
    requires Inv(c) && Solvent(c) && IsUser(a) && UserStep(c, now, a).Ok?
    ensures Solvent(UserStep(c, now, a).value)
  {
    match a
    case Deposit(lamports, funds) => DepositKeepsSolvent(c, lamports, funds);
    case DepositStakeAccount(key, account, activationEpoch, index) =>
      DepositStakeAccountKeepsSolvent(c, now, key, account, activationEpoch, index);
    case WithdrawStakeAccount(stakeIndex, index, msol, funds, key, splitKey, rent, ready) =>
      WithdrawKeepsSolvent(c, stakeIndex, index, msol, funds, key, splitKey, rent, ready);
    case OrderUnstake(msol, funds, ticketKey, beneficiary) =>
      OrderUnstakeKeepsSolvent(c, now, msol, funds, ticketKey, beneficiary);
    case Claim(ticketKey, receiver) => ClaimKeepsValue(c, now, ticketKey, receiver);
  }

  lemma UpkeepStepKeepsSolvent(c: Chain, now: Clock, a: Action)
    requires Inv(c) && Solvent(c) && (IsUpdate(a) || a.MergeStakes?) && !Slashes(c, a) && UpkeepStep(c, now, a).Ok?
    ensures Solvent(UpkeepStep(c, now, a).value)
  {
    match a
    case UpdateActive(stakeIndex, index, key, ready) => UpdateActiveKeepsSolvent(c, now, stakeIndex, index, key, ready);
    case UpdateDeactivated(stakeIndex, key, ready) => UpdateDeactivatedKeepsSolvent(c, stakeIndex, key, ready);
    case MergeStakes(destIndex, sourceIndex, index, destKey, sourceKey, extra) =>
      MergeStakesIsSound(c, destIndex, sourceIndex, index, destKey, sourceKey, extra);
  }

  lemma StepKeepsSolvent(c: Chain, e: Event)
    requires Inv(c) && Solvent(c) && (Step(c, e).Ok? ==> !Slashes(c, e.action))
    ensures Solvent(Exec(c, e))
  {
    var a := e.action;
    if Step(c, e).Ok? {
      if Outside(a) {
        OutsideStepKeepsValue(c, a);
      } else if IsUser(a) {
        UserStepKeepsSolvent(c, e.now, a);
      } else if IsPool(a) {
        PoolStepKeepsValue(c, a);
      } else if IsRebalance(a) {
        RebalanceConserves(c, e.now, a);
      } else if IsAdmin(a) {
        AdminStepKeepsValue(c, a);
      } else {
        UpkeepStepKeepsSolvent(c, e.now, a);
      }
    }
  }

  /** A run in which no successful update sees a slash. */
  ghost predicate SlashFree(c: Chain, events: seq<Event>) {
    events == [] ||
    var most, last := events[..|events| - 1], events[|events| - 1];
    SlashFree(c, most) && (Step(Run(c, most), last).Ok? ==> !Slashes(Run(c, most), last.action))
  }

  lemma {:induction false} RunKeepsSolvent(c: Chain, events: seq<Event>)
    requires Inv(c) && Solvent(c) && SlashFree(c, events)
    ensures Solvent(Run(c, events))
  {
    if events != [] {
      var most := events[..|events| - 1];
      RunKeepsSolvent(c, most);
      RunKeepsInv(c, most);
      StepKeepsSolvent(Run(c, most), events[|events| - 1]);
    }
  }

  /** From creation, as long as no update sees a slash, open tickets never exceed the lamports under
      control, V >= S, and the stored price is at least one lamport per mSOL. */
  lemma SlashFreeRunsAreSolvent(p: InitializeData, events: seq<Event>)
    requires Initialize(p).Ok? && SlashFree(Initialize(p).value, events)
    ensures var c := Run(Initialize(p).value, events);
            c.ticketBalance <= Control(c) && c.msolSupply <= Virtual(c) && PRICE_DENOMINATOR <= c.msolPrice
  {
    InitialState(p);
    RunKeepsSolvent(Initialize(p).value, events);
  }

  /** In such states the total stake target of the moves between validators is never negative. */
  lemma SolventTarget(c: Chain)
    requires Inv(c) && Solvent(c)
    ensures 0 <= c.validatorSystem.totalActive + StakeDelta(c)
  {
  }
}
