/** Runs from a new pool that end where the program does not keep what one would expect of it: an update
    without a slash that lowers the price, a first depositor who profits, transfers the reserve does not
    cover, moves without a target, and a split of less than the comments promise. */
module Witnesses {
  import opened Results
  import opened Calc
  import opened Records
  import opened State
  import opened Admin
  import opened Ledger
  import opened Machine
  import Cranks
  import Users
  import opened Invariants
  import opened Price
  import opened Reserve

  const SOL: nat := LAMPORTS_PER_SOL
  const RENT: nat := 2_282_880

  /** A pool as it may be created, with a rent and fees of the usual size. */
  const PARAMS: InitializeData := InitializeData(
    minStake := MIN_STAKE_LOWER_LIMIT, rewardFee := MAX_REWARD_FEE, slots := MIN_UPDATE_WINDOW, rentExempt := 2_039_280,
    stakeCapacity := 100, validatorCapacity := 100, target := MIN_LIQUIDITY_TARGET, maxFee := 300, minFee := 30,
    treasuryCut := 2500)

  const NOW: Clock := Clock(1, 0, 0, 0)

  function At(action: Action): Event {
    Event(NOW, action)
  }

  lemma NewPool()
    ensures Initialize(PARAMS).Ok?
  {
  }

  function Fresh(): Chain {
    NewPool();
    Initialize(PARAMS).value
  }

  lemma RunMore(events: seq<Event>, c: Chain, e: Event, c': Chain)
    requires Run(Fresh(), events) == c && Step(c, e) == Ok(c')
    ensures Run(Fresh(), events + [e]) == c'
  {
    hide Step, Fresh;
    assert (events + [e])[..|events|] == events;
  }

  lemma RunIsReachable(events: seq<Event>)
    ensures Reachable(Run(Fresh(), events))
  {
    NewPool();
  }

  // ---------- a pool with one validator and one stake account ----------

  function Pool(vote: Key, active: nat, records: seq<StakeRecord>, stakes: map<Key, StakeAccount>, mint: nat,
                supply: nat, price: nat): Chain {
    Fresh().(
      validatorSystem := ValidatorSystem([ValidatorRecord(vote, active, 1, NEVER, 0)], 100, 1, active),
      stakeSystem := Fresh().stakeSystem.(list := records),
      stakes := stakes, msolMint := mint, msolSupply := supply, msolPrice := price)
  }

  /** The account was last seen with `active` lamports of stake and has `stake` now. */
  function Staked(vote: Key, account: Key, active: nat, stake: nat, mint: nat, supply: nat, price: nat): Chain {
    Pool(vote, active, [StakeRecord(account, active, NOW.epoch, 0)],
         map[account := StakeAccount(vote, false, stake, stake + RENT, RENT)], mint, supply, price)
  }

  function Offered(vote: Key): StakeAccount {
    StakeAccount(vote, false, SOL, SOL + RENT, RENT)
  }

  lemma ValidatorAdded(vote: Key)
    ensures Step(Fresh(), At(AddValidator(vote, 1, 0))) == Ok(Pool(vote, 0, [], map[], 0, 0, PRICE_DENOMINATOR))
  {
    assert [] + [ValidatorRecord(vote, 0, 1, NEVER, 0)] == [ValidatorRecord(vote, 0, 1, NEVER, 0)];
  }

  lemma AccountTaken(vote: Key, account: Key)
    ensures Users.DepositStakeAccount(Pool(vote, 0, [], map[], 0, 0, PRICE_DENOMINATOR), NOW, account, Offered(vote), 0,
                                      0)
         == Ok(Staked(vote, account, SOL, SOL, SOL, SOL, PRICE_DENOMINATOR))
  {
    var stakes: map<Key, StakeAccount> := map[];
    assert [] + [StakeRecord(account, SOL, NOW.epoch, 0)] == [StakeRecord(account, SOL, NOW.epoch, 0)];
    assert stakes[account := Offered(vote)] == map[account := Offered(vote)];
    assert [ValidatorRecord(vote, 0, 1, NEVER, 0)][0 := ValidatorRecord(vote, SOL, 1, NEVER, 0)]
           == [ValidatorRecord(vote, SOL, 1, NEVER, 0)];
  }

  lemma AccountDeposited(vote: Key, account: Key)
    ensures Step(Pool(vote, 0, [], map[], 0, 0, PRICE_DENOMINATOR),
                 At(DepositStakeAccount(account, Offered(vote), 0, 0)))
         == Ok(Staked(vote, account, SOL, SOL, SOL, SOL, PRICE_DENOMINATOR))
  {
    AccountTaken(vote, account);
  }

  lemma StakeChanged(vote: Key, account: Key, active: nat, stake: nat, mint: nat, supply: nat, price: nat, grown: nat)
    ensures Step(Staked(vote, account, active, stake, mint, supply, price),
                 At(StakeAccountChanges(account, grown, grown + RENT)))
         == Ok(Staked(vote, account, active, grown, mint, supply, price))
  {
    var before, after := StakeAccount(vote, false, stake, stake + RENT, RENT),
      StakeAccount(vote, false, grown, grown + RENT, RENT);
    assert map[account := before][account := after] == map[account := after];
  }

  lemma MsolBurned(vote: Key, account: Key, active: nat, stake: nat, mint: nat, supply: nat, price: nat, burned: nat)
    requires burned <= mint
    ensures Step(Staked(vote, account, active, stake, mint, supply, price), At(HoldersBurnMsol(burned)))
         == Ok(Staked(vote, account, active, stake, mint - burned, supply, price))
  {
    hide UserStep, PoolStep, RebalanceStep, AdminStep, UpkeepStep;
  }

  lemma AccountBooked(vote: Key, account: Key, active: nat, stake: nat, mint: nat, price: nat, ready: bool, fees: nat)
    requires active <= stake < U64_LIMIT && mint + fees < U64_LIMIT
    requires !ready ==> fees == 0
    requires ready ==> SharesFromValue(FeeApply(MAX_REWARD_FEE, stake - active), active, mint) == Ok(fees)
    ensures var c := Staked(vote, account, active, stake, mint, mint, price);
            Cranks.BookActive(c, NOW, 0, c.stakeSystem.list[0], 0, c.validatorSystem.list[0], c.stakes[account], ready)
            == Ok(Staked(vote, account, stake, stake, mint + fees, mint + fees, price))
  {
    var c := Staked(vote, account, active, stake, mint, mint, price);
    assert Cranks.MintProtocolFees(c, stake - active, ready)
           == Ok(c.(msolMint := mint + fees, msolSupply := mint + fees));
    assert Cranks.TakeExtra(c, account, 0, ready) == Ok(c);
    assert c.stakeSystem.list[0 := StakeRecord(account, stake, NOW.epoch, 0)]
           == [StakeRecord(account, stake, NOW.epoch, 0)];
    assert c.validatorSystem.list[0 := ValidatorRecord(vote, stake, 1, NEVER, 0)]
           == [ValidatorRecord(vote, stake, 1, NEVER, 0)];
  }

  lemma UpdateBegun(vote: Key, account: Key, active: nat, stake: nat, mint: nat, supply: nat, price: nat)
    requires mint <= supply
    ensures Cranks.Begin(Staked(vote, account, active, stake, mint, supply, price))
            == Staked(vote, account, active, stake, mint, mint, price)
  {
  }

  /** An update of the account that finds at least what was recorded. */
  lemma AccountUpdates(vote: Key, account: Key, active: nat, stake: nat, mint: nat, supply: nat, price: nat,
                       ready: bool, fees: nat, price': nat)
    requires mint <= supply && active <= stake < U64_LIMIT && mint + fees < U64_LIMIT
    requires !ready ==> fees == 0
    requires ready ==> SharesFromValue(FeeApply(MAX_REWARD_FEE, stake - active), active, mint) == Ok(fees)
    requires ValueFromShares(PRICE_DENOMINATOR, stake, mint + fees) == Ok(price')
    ensures Cranks.UpdateActive(Staked(vote, account, active, stake, mint, supply, price), NOW, 0, 0, account, ready)
         == Ok(Staked(vote, account, stake, stake, mint + fees, mint + fees, price'))
  {
    hide Cranks.BookActive, Cranks.Begin;
    UpdateBegun(vote, account, active, stake, mint, supply, price);
    AccountBooked(vote, account, active, stake, mint, price, ready, fees);
    assert Cranks.UpdatePrice(Staked(vote, account, stake, stake, mint + fees, mint + fees, price))
        == Ok(Staked(vote, account, stake, stake, mint + fees, mint + fees, price'));
  }

  // ---------- what instructions do in these states ----------

  lemma StepIsUpdate(c: Chain, account: Key, ready: bool)
    ensures Step(c, At(UpdateActive(0, 0, account, ready))) == Cranks.UpdateActive(c, NOW, 0, 0, account, ready)
  {
    hide Cranks.UpdateActive;
  }

  lemma StepIsOrder(c: Chain, msol: nat, ticketKey: Key, beneficiary: Key)
    ensures Step(c, At(OrderUnstake(msol, msol, ticketKey, beneficiary)))
         == Users.OrderUnstake(c, NOW, msol, msol, ticketKey, beneficiary)
  {
    hide Users.OrderUnstake;
  }

  lemma StepIsDeactivation(c: Chain, account: Key, splitKey: Key)
    ensures Step(c, At(DeactivateStake(0, 0, account, splitKey, RENT)))
         == Cranks.DeactivateStake(c, NOW, 0, 0, account, splitKey, RENT)
  {
    hide Cranks.DeactivateStake;
  }

  /** The first two events of every run: a validator, and a stake account of one SOL on it. */
  function Opening(vote: Key, account: Key): seq<Event> {
    [] + [At(AddValidator(vote, 1, 0))] + [At(DepositStakeAccount(account, Offered(vote), 0, 0))]
  }

  lemma ValidatorRun(vote: Key)
    ensures Run(Fresh(), [] + [At(AddValidator(vote, 1, 0))]) == Pool(vote, 0, [], map[], 0, 0, PRICE_DENOMINATOR)
  {
    hide Fresh, Step;
    ValidatorAdded(vote);
    RunMore([], Fresh(), At(AddValidator(vote, 1, 0)), Pool(vote, 0, [], map[], 0, 0, PRICE_DENOMINATOR));
  }

  /** After them the pool has one updated stake account and its mSOL. */
  lemma OpeningState(vote: Key, account: Key)
    ensures Run(Fresh(), Opening(vote, account)) == Staked(vote, account, SOL, SOL, SOL, SOL, PRICE_DENOMINATOR)
  {
    hide Fresh, Step, Staked;
    ValidatorRun(vote);
    AccountDeposited(vote, account);
    RunMore([] + [At(AddValidator(vote, 1, 0))], Pool(vote, 0, [], map[], 0, 0, PRICE_DENOMINATOR),
            At(DepositStakeAccount(account, Offered(vote), 0, 0)),
            Staked(vote, account, SOL, SOL, SOL, SOL, PRICE_DENOMINATOR));
  }

  // ---------- the price falls without a slash ----------

  /** All but one unit of mSOL is burned, and the account updated. */
  function LastUnitRun(vote: Key, account: Key): seq<Event> {
    Opening(vote, account) + [At(HoldersBurnMsol(SOL - 1))] + [At(UpdateActive(0, 0, account, false))]
  }

  lemma LastUnitState(vote: Key, account: Key)
    ensures Run(Fresh(), LastUnitRun(vote, account)) == Staked(vote, account, SOL, SOL, 1, 1, SOL * PRICE_DENOMINATOR)
  {
    hide Fresh, Step, Staked;
    var s2, s3 := Staked(vote, account, SOL, SOL, SOL, SOL, PRICE_DENOMINATOR),
      Staked(vote, account, SOL, SOL, 1, SOL, PRICE_DENOMINATOR);
    OpeningState(vote, account);
    MsolBurned(vote, account, SOL, SOL, SOL, SOL, PRICE_DENOMINATOR, SOL - 1);
    RunMore(Opening(vote, account), s2, At(HoldersBurnMsol(SOL - 1)), s3);
    ProportionalIsFloor(PRICE_DENOMINATOR, SOL, 1, SOL * PRICE_DENOMINATOR);
    AccountUpdates(vote, account, SOL, SOL, 1, SOL, PRICE_DENOMINATOR, false, 0, SOL * PRICE_DENOMINATOR);
    StepIsUpdate(s3, account, false);
    RunMore(Opening(vote, account) + [At(HoldersBurnMsol(SOL - 1))], s3, At(UpdateActive(0, 0, account, false)),
            Staked(vote, account, SOL, SOL, 1, 1, SOL * PRICE_DENOMINATOR));
  }

  /** Then the last unit is burned and the account earns 1000 lamports. */
  function BurnedOutRun(vote: Key, account: Key): seq<Event> {
    LastUnitRun(vote, account) + [At(HoldersBurnMsol(1))]
    + [At(StakeAccountChanges(account, SOL + 1000, SOL + 1000 + RENT))]
  }

  function BurnedOut(vote: Key, account: Key): Chain {
    Staked(vote, account, SOL, SOL + 1000, 0, 1, SOL * PRICE_DENOMINATOR)
  }

  lemma BurnedOutState(vote: Key, account: Key)
    ensures Run(Fresh(), BurnedOutRun(vote, account)) == BurnedOut(vote, account)
  {
    hide Fresh, Step, Staked, LastUnitRun;
    var s4, s5 := Staked(vote, account, SOL, SOL, 1, 1, SOL * PRICE_DENOMINATOR),
      Staked(vote, account, SOL, SOL, 0, 1, SOL * PRICE_DENOMINATOR);
    LastUnitState(vote, account);
    MsolBurned(vote, account, SOL, SOL, 1, 1, SOL * PRICE_DENOMINATOR, 1);
    RunMore(LastUnitRun(vote, account), s4, At(HoldersBurnMsol(1)), s5);
    StakeChanged(vote, account, SOL, SOL, 0, 1, SOL * PRICE_DENOMINATOR, SOL + 1000);
    RunMore(LastUnitRun(vote, account) + [At(HoldersBurnMsol(1))], s5,
            At(StakeAccountChanges(account, SOL + 1000, SOL + 1000 + RENT)), BurnedOut(vote, account));
  }

  lemma BurnedOutPrice(vote: Key, account: Key)
    ensures var c := BurnedOut(vote, account);
            var r := Cranks.UpdateActive(c, NOW, 0, 0, account, true);
            0 < c.msolSupply && !MayLower(c, UpdateActive(0, 0, account, true)) && r.Ok? && !NoCheaper(c, r.value)
  {
    hide Cranks.UpdateActive;
    ProportionalIsFloor(PRICE_DENOMINATOR, SOL + 1000, 100, 10_000_010 * PRICE_DENOMINATOR);
    AccountUpdates(vote, account, SOL, SOL + 1000, 0, 1, SOL * PRICE_DENOMINATOR, true, 100,
                   10_000_010 * PRICE_DENOMINATOR);
  }

  /** Why an update needs real mSOL for the price to hold: in a state a pool reaches once its holders have
      burned all mSOL, an update that only sees a small reward restarts the supply with its own fees at one
      lamport a share, and the price on record falls. */
  lemma BurnedOutUpdateLowersPrice(vote: Key, account: Key)
    ensures var c, e := Run(Fresh(), BurnedOutRun(vote, account)), At(UpdateActive(0, 0, account, true));
            Reachable(c) && 0 < c.msolSupply && !MayLower(c, e.action) && Step(c, e).Ok?
              && !NoCheaper(c, Step(c, e).value)
  {
    hide Fresh, Step, BurnedOut, BurnedOutRun, Reachable, NoCheaper, MayLower;
    RunIsReachable(BurnedOutRun(vote, account));
    BurnedOutState(vote, account);
    BurnedOutPrice(vote, account);
    StepIsUpdate(BurnedOut(vote, account), account, true);
  }

  // ---------- the first depositor profits ----------

  function LeftoverRun(vote: Key, account: Key): seq<Event> {
    Opening(vote, account) + [At(HoldersBurnMsol(SOL))] + [At(UpdateActive(0, 0, account, false))]
  }

  lemma LeftoverState(vote: Key, account: Key)
    ensures Run(Fresh(), LeftoverRun(vote, account)) == Staked(vote, account, SOL, SOL, 0, 0, PRICE_DENOMINATOR)
  {
    hide Fresh, Step, Staked;
    var s2, s3 := Staked(vote, account, SOL, SOL, SOL, SOL, PRICE_DENOMINATOR),
      Staked(vote, account, SOL, SOL, 0, SOL, PRICE_DENOMINATOR);
    OpeningState(vote, account);
    MsolBurned(vote, account, SOL, SOL, SOL, SOL, PRICE_DENOMINATOR, SOL);
    RunMore(Opening(vote, account), s2, At(HoldersBurnMsol(SOL)), s3);
    AccountUpdates(vote, account, SOL, SOL, 0, SOL, PRICE_DENOMINATOR, false, 0, PRICE_DENOMINATOR);
    StepIsUpdate(s3, account, false);
    RunMore(Opening(vote, account) + [At(HoldersBurnMsol(SOL))], s3, At(UpdateActive(0, 0, account, false)),
            Staked(vote, account, SOL, SOL, 0, 0, PRICE_DENOMINATOR));
  }

  lemma OneLamportDeposited(vote: Key, account: Key)
    ensures var c := Staked(vote, account, SOL, SOL, 0, 0, PRICE_DENOMINATOR);
            Users.Deposit(c, 1, 1) == Ok(c.(reserve := c.reserve + 1, available := 1, msolMint := 1, msolSupply := 1))
  {
  }

  lemma OneLamportOrdered(c: Chain, ticketKey: Key, beneficiary: Key)
    requires Virtual(c) == SOL + 1 && Control(c) == SOL + 1 && c.ticketBalance == 0 && c.ticketCount == 0
             && c.tickets == map[] && !c.paused
    requires c.msolSupply == 1 && c.msolMint == 1 && c.msolLeg == 0 && c.config.delayedFee == 0
             && c.config.minWithdraw == 1
    ensures var r := Users.OrderUnstake(c, NOW, 1, 1, ticketKey, beneficiary);
            r.Ok? && ticketKey in r.value.tickets && r.value.tickets[ticketKey].lamports == SOL + 1
  {
    assert Users.TicketLamports(c, 1) == Ok(SOL + 1);
  }

  /** In a state a pool reaches once all its mSOL was burned and an update has seen it, a deposit of one
      lamport followed by an unstake order of what it bought gives a ticket for a whole SOL more. */
  lemma FirstDepositorProfits(vote: Key, account: Key, ticketKey: Key, beneficiary: Key)
    ensures var c := Run(Fresh(), LeftoverRun(vote, account));
            && Reachable(c) && c.msolSupply == 0 && Users.Deposit(c, 1, 1).Ok?
            && var r := Users.OrderUnstake(Users.Deposit(c, 1, 1).value, NOW, 1, 1, ticketKey, beneficiary);
               r.Ok? && ticketKey in r.value.tickets && r.value.tickets[ticketKey].lamports == SOL + 1
  {
    hide Step, LeftoverRun, Reachable, Users.Deposit, Users.OrderUnstake;
    RunIsReachable(LeftoverRun(vote, account));
    LeftoverState(vote, account);
    OneLamportDeposited(vote, account);
    OneLamportOrdered(Users.Deposit(Staked(vote, account, SOL, SOL, 0, 0, PRICE_DENOMINATOR), 1, 1).value, ticketKey,
                      beneficiary);
  }

  // ---------- the virtual balance does not cover staking ----------

  const GIFT: nat := 20_000_000

  function Gifted(vote: Key): Chain {
    var pool := Pool(vote, 0, [], map[], 0, 0, PRICE_DENOMINATOR);
    pool.(reserve := pool.reserve + GIFT)
  }

  lemma GiftGiven(vote: Key)
    ensures Step(Pool(vote, 0, [], map[], 0, 0, PRICE_DENOMINATOR), At(GiftToReserve(GIFT))) == Ok(Gifted(vote))
  {
    hide UserStep, PoolStep, RebalanceStep, AdminStep, UpkeepStep;
  }

  lemma GiftedRunsShort(vote: Key, newKey: Key)
    ensures Cranks.StakeReserve(Gifted(vote), NOW, 0, vote, newKey, RENT) == Err(ReserveUnderflow)
  {
    var c := Gifted(vote);
    assert Cranks.ReservePlan(c, c.validatorSystem.list[0], GIFT) == Ok(Cranks.Part(GIFT));
  }

  lemma StepIsStaking(c: Chain, now: Clock, vote: Key, newKey: Key)
    ensures Step(c, Event(now, StakeReserve(0, vote, newKey, RENT)))
         == Cranks.StakeReserve(c, now, 0, vote, newKey, RENT)
  {
    hide Cranks.StakeReserve;
  }

  function GiftRun(vote: Key): seq<Event> {
    [] + [At(AddValidator(vote, 1, 0))] + [At(GiftToReserve(GIFT))]
  }

  /** In a state a new pool reaches by one validator and a gift to its reserve, staking the reserve fails on
      the virtual balance, which does not count the gift yet. */
  lemma GiftRunsShort(vote: Key, newKey: Key)
    ensures var c := Run(Fresh(), GiftRun(vote));
            Reachable(c) && Step(c, At(StakeReserve(0, vote, newKey, RENT))) == Err(ReserveUnderflow)
  {
    hide Fresh, Step, Gifted, Reachable;
    RunIsReachable(GiftRun(vote));
    ValidatorRun(vote);
    GiftGiven(vote);
    RunMore([] + [At(AddValidator(vote, 1, 0))], Pool(vote, 0, [], map[], 0, 0, PRICE_DENOMINATOR),
            At(GiftToReserve(GIFT)), Gifted(vote));
    GiftedRunsShort(vote, newKey);
    StepIsStaking(Gifted(vote), NOW, vote, newKey);
  }

  // ---------- orders ----------

  /** The pool after an order of some of its mSOL, one lamport each. */
  function Ordered(vote: Key, account: Key, stake: nat, msol: nat, ticketKey: Key, beneficiary: Key): Chain
    requires msol <= SOL
  {
    Staked(vote, account, SOL, stake, SOL - msol, SOL - msol, PRICE_DENOMINATOR).(
      ticketBalance := msol, ticketCount := 1, tickets := map[ticketKey := Ticket(beneficiary, msol, NOW.epoch)])
  }

  function OrderRun(vote: Key, account: Key, msol: nat, ticketKey: Key, beneficiary: Key): seq<Event> {
    Opening(vote, account) + [At(OrderUnstake(msol, msol, ticketKey, beneficiary))]
  }

  lemma MsolOrdered(vote: Key, account: Key, msol: nat, ticketKey: Key, beneficiary: Key)
    requires 0 < msol <= SOL
    ensures Users.OrderUnstake(Staked(vote, account, SOL, SOL, SOL, SOL, PRICE_DENOMINATOR), NOW, msol, msol, ticketKey,
                               beneficiary)
         == Ok(Ordered(vote, account, SOL, msol, ticketKey, beneficiary))
  {
    var c := Staked(vote, account, SOL, SOL, SOL, SOL, PRICE_DENOMINATOR);
    ProportionalIsFloor(msol, SOL, SOL, msol);
    assert Users.TicketLamports(c, msol) == Ok(msol);
    var tickets: map<Key, Ticket> := map[];
    assert tickets[ticketKey := Ticket(beneficiary, msol, NOW.epoch)]
        == map[ticketKey := Ticket(beneficiary, msol, NOW.epoch)];
  }

  lemma OrderedState(vote: Key, account: Key, msol: nat, ticketKey: Key, beneficiary: Key)
    requires 0 < msol <= SOL
    ensures Run(Fresh(), OrderRun(vote, account, msol, ticketKey, beneficiary))
         == Ordered(vote, account, SOL, msol, ticketKey, beneficiary)
  {
    hide Fresh, Step, Staked, Ordered, Users.OrderUnstake;
    var c := Staked(vote, account, SOL, SOL, SOL, SOL, PRICE_DENOMINATOR);
    OpeningState(vote, account);
    MsolOrdered(vote, account, msol, ticketKey, beneficiary);
    StepIsOrder(c, msol, ticketKey, beneficiary);
    RunMore(Opening(vote, account), c, At(OrderUnstake(msol, msol, ticketKey, beneficiary)),
            Ordered(vote, account, SOL, msol, ticketKey, beneficiary));
  }

  // ---------- a split of less than twice the minimum stake ----------

  const SMALL: nat := 1_000_000

  lemma SmallSplitDone(vote: Key, account: Key, ticketKey: Key, beneficiary: Key, splitKey: Key)
    requires splitKey != account
    ensures var c := Ordered(vote, account, SOL, SMALL, ticketKey, beneficiary);
            var r := Cranks.DeactivateStake(c, NOW, 0, 0, account, splitKey, RENT);
            && r.Ok? && r.value.stakeSystem.list
                        == [StakeRecord(account, SOL - SMALL, NOW.epoch, 0), StakeRecord(splitKey, SMALL, NOW.epoch, 0)]
  {
    var c := Ordered(vote, account, SOL, SMALL, ticketKey, beneficiary);
    ProportionalIsFloor(SOL - SMALL, 1, 1, SOL - SMALL);
    assert StakeDelta(c) + SMALL == 0;
    assert Cranks.DeactivatePlan(c, NOW, c.stakeSystem.list[0], c.validatorSystem.list[0], SMALL)
        == Ok(Cranks.Part(SMALL));
  }

  /** In a state a pool reaches by a deposited account and a small unstake order, what is split off to cool
      down is less than the minimum stake, let alone twice it. */
  lemma SplitsLessThanMinStake(vote: Key, account: Key, ticketKey: Key, beneficiary: Key, splitKey: Key)
    requires splitKey != account
    ensures var c := Run(Fresh(), OrderRun(vote, account, SMALL, ticketKey, beneficiary));
            var r := Step(c, At(DeactivateStake(0, 0, account, splitKey, RENT)));
            && Reachable(c) && r.Ok? && |r.value.stakeSystem.list| == 2
            && r.value.stakeSystem.list[1].lamports == SMALL < c.stakeSystem.minStake
  {
    hide Step, OrderRun, Reachable, Cranks.DeactivateStake;
    RunIsReachable(OrderRun(vote, account, SMALL, ticketKey, beneficiary));
    OrderedState(vote, account, SMALL, ticketKey, beneficiary);
    SmallSplitDone(vote, account, ticketKey, beneficiary, splitKey);
    StepIsDeactivation(Ordered(vote, account, SOL, SMALL, ticketKey, beneficiary), account, splitKey);
  }

  // ---------- no target to move to ----------

  /** All mSOL is ordered, the account is slashed by half, and updated. */
  function SlashedRun(vote: Key, account: Key, ticketKey: Key, beneficiary: Key): seq<Event> {
    OrderRun(vote, account, SOL, ticketKey, beneficiary)
    + [At(StakeAccountChanges(account, SOL / 2, SOL / 2 + RENT))] + [At(UpdateActive(0, 0, account, false))]
  }

  function Slashed(vote: Key, account: Key, ticketKey: Key, beneficiary: Key): Chain {
    Staked(vote, account, SOL / 2, SOL / 2, 0, 0, PRICE_DENOMINATOR).(
      ticketBalance := SOL, ticketCount := 1, tickets := map[ticketKey := Ticket(beneficiary, SOL, NOW.epoch)])
  }

  lemma OrderedChanges(vote: Key, account: Key, ticketKey: Key, beneficiary: Key)
    ensures Step(Ordered(vote, account, SOL, SOL, ticketKey, beneficiary),
                 At(StakeAccountChanges(account, SOL / 2, SOL / 2 + RENT)))
         == Ok(Ordered(vote, account, SOL / 2, SOL, ticketKey, beneficiary))
  {
    hide UserStep, PoolStep, RebalanceStep, AdminStep, UpkeepStep;
    var before, after := StakeAccount(vote, false, SOL, SOL + RENT, RENT),
      StakeAccount(vote, false, SOL / 2, SOL / 2 + RENT, RENT);
    assert map[account := before][account := after] == map[account := after];
  }

  lemma SlashBooked(vote: Key, account: Key, ticketKey: Key, beneficiary: Key)
    ensures Cranks.UpdateActive(Ordered(vote, account, SOL / 2, SOL, ticketKey, beneficiary), NOW, 0, 0, account, false)
         == Ok(Slashed(vote, account, ticketKey, beneficiary))
  {
    var c := Ordered(vote, account, SOL / 2, SOL, ticketKey, beneficiary);
    assert Cranks.Begin(c) == c;
    assert c.stakeSystem.list[0 := StakeRecord(account, SOL / 2, NOW.epoch, 0)]
        == [StakeRecord(account, SOL / 2, NOW.epoch, 0)];
    assert c.validatorSystem.list[0 := ValidatorRecord(vote, SOL / 2, 1, NEVER, 0)]
        == [ValidatorRecord(vote, SOL / 2, 1, NEVER, 0)];
    assert Cranks.BookActive(c, NOW, 0, c.stakeSystem.list[0], 0, c.validatorSystem.list[0], c.stakes[account], false)
        == Ok(Slashed(vote, account, ticketKey, beneficiary));
  }

  lemma SlashedState(vote: Key, account: Key, ticketKey: Key, beneficiary: Key)
    ensures Run(Fresh(), SlashedRun(vote, account, ticketKey, beneficiary))
         == Slashed(vote, account, ticketKey, beneficiary)
  {
    hide Fresh, Step, OrderRun, Ordered, Slashed, Cranks.UpdateActive;
    var run := OrderRun(vote, account, SOL, ticketKey, beneficiary);
    var slash := At(StakeAccountChanges(account, SOL / 2, SOL / 2 + RENT));
    var s4 := Ordered(vote, account, SOL / 2, SOL, ticketKey, beneficiary);
    OrderedState(vote, account, SOL, ticketKey, beneficiary);
    OrderedChanges(vote, account, ticketKey, beneficiary);
    RunMore(run, Ordered(vote, account, SOL, SOL, ticketKey, beneficiary), slash, s4);
    SlashBooked(vote, account, ticketKey, beneficiary);
    StepIsUpdate(s4, account, false);
    RunMore(run + [slash], s4, At(UpdateActive(0, 0, account, false)), Slashed(vote, account, ticketKey, beneficiary));
  }

  lemma SlashedHasNoTarget(vote: Key, account: Key, ticketKey: Key, beneficiary: Key, splitKey: Key, newKey: Key)
    requires splitKey != account && newKey != account && splitKey != newKey
    ensures var c := Slashed(vote, account, ticketKey, beneficiary);
            && Cranks.Redelegate(c, NOW, 0, 0, 1, account, vote, splitKey, newKey, RENT) == Err(TargetOutOfRange)
            && Cranks.PartialUnstake(c, NOW, 0, 0, SOL, account, splitKey, RENT) == Err(TargetOutOfRange)
  {
    assert MoveTarget(Slashed(vote, account, ticketKey, beneficiary)) == Err(TargetOutOfRange);
  }

  lemma StepIsMove(c: Chain, vote: Key, account: Key, splitKey: Key, newKey: Key)
    ensures Step(c, At(Redelegate(0, 0, 1, account, vote, splitKey, newKey, RENT)))
         == Cranks.Redelegate(c, NOW, 0, 0, 1, account, vote, splitKey, newKey, RENT)
    ensures Step(c, At(PartialUnstake(0, 0, SOL, account, splitKey, RENT)))
         == Cranks.PartialUnstake(c, NOW, 0, 0, SOL, account, splitKey, RENT)
  {
    hide Cranks.Redelegate, Cranks.PartialUnstake;
  }

  /** In a state a pool reaches when it is slashed with more ordered than it has left, redelegation and
      partial unstakes stop on a total target below zero. */
  lemma MovesStop(vote: Key, account: Key, ticketKey: Key, beneficiary: Key, splitKey: Key, newKey: Key)
    requires splitKey != account && newKey != account && splitKey != newKey
    ensures var c := Run(Fresh(), SlashedRun(vote, account, ticketKey, beneficiary));
            && Reachable(c)
            && Step(c, At(Redelegate(0, 0, 1, account, vote, splitKey, newKey, RENT))) == Err(TargetOutOfRange)
            && Step(c, At(PartialUnstake(0, 0, SOL, account, splitKey, RENT))) == Err(TargetOutOfRange)
  {
    hide Fresh, Step, SlashedRun, Slashed, Reachable, Cranks.Redelegate, Cranks.PartialUnstake;
    RunIsReachable(SlashedRun(vote, account, ticketKey, beneficiary));
    SlashedState(vote, account, ticketKey, beneficiary);
    SlashedHasNoTarget(vote, account, ticketKey, beneficiary, splitKey, newKey);
    StepIsMove(Slashed(vote, account, ticketKey, beneficiary), vote, account, splitKey, newKey);
  }

  // ---------- the real balance does not cover staking ----------

  const LATER: Clock := Clock(2, 0, 0, 0)

  /** All stake cools down for one ticket, which a deposit has paid in the meantime. */
  function CoolingRun(vote: Key, account: Key, ticketKey: Key, beneficiary: Key, splitKey: Key): seq<Event> {
    OrderRun(vote, account, SOL, ticketKey, beneficiary) + [At(DeactivateStake(0, 0, account, splitKey, RENT))]
    + [At(Deposit(SOL, SOL))] + [Event(LATER, Claim(ticketKey, beneficiary))]
  }

  /** The pool while its one account cools down; `sol` is in the reserve, for as much mSOL. */
  function Cooling(vote: Key, account: Key, sol: nat, msol: nat): Chain {
    var pool := Pool(vote, 0, [StakeRecord(account, SOL, NOW.epoch, 0)],
                     map[account := StakeAccount(vote, true, SOL, SOL + RENT, RENT)], msol, msol, PRICE_DENOMINATOR);
    pool.(stakeSystem := pool.stakeSystem.(delayedCooling := SOL, lastDeltaEpoch := NOW.epoch),
          reserve := pool.reserve + sol, available := sol)
  }

  function Owing(c: Chain, ticketKey: Key, beneficiary: Key): Chain {
    c.(ticketBalance := SOL, ticketCount := 1, tickets := map[ticketKey := Ticket(beneficiary, SOL, NOW.epoch)])
  }

  lemma AllDeactivated(vote: Key, account: Key, ticketKey: Key, beneficiary: Key, splitKey: Key)
    requires splitKey != account
    ensures Cranks.DeactivateStake(Ordered(vote, account, SOL, SOL, ticketKey, beneficiary), NOW, 0, 0, account,
                                   splitKey, RENT)
         == Ok(Owing(Cooling(vote, account, 0, 0), ticketKey, beneficiary))
  {
    var c := Ordered(vote, account, SOL, SOL, ticketKey, beneficiary);
    assert StakeDelta(c) + SOL == 0;
    assert Cranks.DeactivatePlan(c, NOW, c.stakeSystem.list[0], c.validatorSystem.list[0], SOL)
        == Ok(Cranks.Whole(SOL));
    var before, after := StakeAccount(vote, false, SOL, SOL + RENT, RENT),
      StakeAccount(vote, true, SOL, SOL + RENT, RENT);
    assert map[account := before][account := after] == map[account := after];
    assert c.stakeSystem.list[0 := StakeRecord(account, SOL, NOW.epoch, 0)]
        == [StakeRecord(account, SOL, NOW.epoch, 0)];
    assert c.validatorSystem.list[0 := ValidatorRecord(vote, 0, 1, NEVER, 0)]
        == [ValidatorRecord(vote, 0, 1, NEVER, 0)];
  }

  lemma CoolingDeposited(vote: Key, account: Key, ticketKey: Key, beneficiary: Key)
    ensures Users.Deposit(Owing(Cooling(vote, account, 0, 0), ticketKey, beneficiary), SOL, SOL)
         == Ok(Owing(Cooling(vote, account, SOL, SOL), ticketKey, beneficiary))
  {
    assert Users.DepositOrder(Owing(Cooling(vote, account, 0, 0), ticketKey, beneficiary), SOL)
        == Ok(Users.Order(SOL, 0, 0));
  }

  lemma CoolingPaid(vote: Key, account: Key, ticketKey: Key, beneficiary: Key)
    ensures Users.Claim(Owing(Cooling(vote, account, SOL, SOL), ticketKey, beneficiary), LATER, ticketKey, beneficiary)
         == Ok(Cooling(vote, account, 0, SOL))
  {
    var c := Owing(Cooling(vote, account, SOL, SOL), ticketKey, beneficiary);
    assert c.tickets - {ticketKey} == map[];
  }

  lemma StepIsDepositOrClaim(c: Chain, ticketKey: Key, beneficiary: Key)
    ensures Step(c, At(Deposit(SOL, SOL))) == Users.Deposit(c, SOL, SOL)
    ensures Step(c, Event(LATER, Claim(ticketKey, beneficiary))) == Users.Claim(c, LATER, ticketKey, beneficiary)
  {
    hide Users.Deposit, Users.Claim;
  }

  lemma CoolingState(vote: Key, account: Key, ticketKey: Key, beneficiary: Key, splitKey: Key)
    requires splitKey != account
    ensures Run(Fresh(), CoolingRun(vote, account, ticketKey, beneficiary, splitKey)) == Cooling(vote, account, 0, SOL)
  {
    hide Fresh, Step, OrderRun, Ordered, Owing, Cooling, Cranks.DeactivateStake, Users.Deposit, Users.Claim;
    var run := OrderRun(vote, account, SOL, ticketKey, beneficiary);
    var stop, pay := At(DeactivateStake(0, 0, account, splitKey, RENT)), At(Deposit(SOL, SOL));
    var s3 := Ordered(vote, account, SOL, SOL, ticketKey, beneficiary);
    var s4 := Owing(Cooling(vote, account, 0, 0), ticketKey, beneficiary);
    var s5 := Owing(Cooling(vote, account, SOL, SOL), ticketKey, beneficiary);
    OrderedState(vote, account, SOL, ticketKey, beneficiary);
    AllDeactivated(vote, account, ticketKey, beneficiary, splitKey);
    StepIsDeactivation(s3, account, splitKey);
    RunMore(run, s3, stop, s4);
    CoolingDeposited(vote, account, ticketKey, beneficiary);
    StepIsDepositOrClaim(s4, ticketKey, beneficiary);
    RunMore(run + [stop], s4, pay, s5);
    CoolingPaid(vote, account, ticketKey, beneficiary);
    StepIsDepositOrClaim(s5, ticketKey, beneficiary);
    RunMore(run + [stop] + [pay], s5, Event(LATER, Claim(ticketKey, beneficiary)), Cooling(vote, account, 0, SOL));
  }

  lemma CoolingStakes(vote: Key, account: Key, newKey: Key)
    requires newKey != account
    ensures Cranks.StakeReserve(Cooling(vote, account, 0, SOL), LATER, 0, vote, newKey, RENT) == Err(ReserveShort)
  {
    var c := Cooling(vote, account, 0, SOL);
    ProportionalIsFloor(SOL, 1, 1, SOL);
    assert Cranks.ReservePlan(c, c.validatorSystem.list[0], SOL) == Ok(Cranks.Part(SOL));
  }

  /** In a state a pool reaches without any gift, with its balances aligned, staking the reserve fails because
      it asks the reserve for stake that is still cooling down. */
  lemma CoolingRunsShort(vote: Key, account: Key, ticketKey: Key, beneficiary: Key, splitKey: Key, newKey: Key)
    requires splitKey != account && newKey != account
    ensures var c := Run(Fresh(), CoolingRun(vote, account, ticketKey, beneficiary, splitKey));
            && Reachable(c) && Aligned(c)
            && Step(c, Event(LATER, StakeReserve(0, vote, newKey, RENT))) == Err(ReserveShort)
  {
    hide Step, CoolingRun, Reachable, Cranks.StakeReserve;
    RunIsReachable(CoolingRun(vote, account, ticketKey, beneficiary, splitKey));
    CoolingState(vote, account, ticketKey, beneficiary, splitKey);
    CoolingStakes(vote, account, newKey);
    StepIsStaking(Cooling(vote, account, 0, SOL), LATER, vote, newKey);
  }
}
