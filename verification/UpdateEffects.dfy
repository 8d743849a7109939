/** What the two updates book, exactly: when they succeed, and the whole chain afterwards, with the fees
    and the price given by what they round to. */
module UpdateEffects {
  import opened Results
  import opened Calc
  import opened Sums
  import opened Records
  import opened State
  import opened Ledger
  import opened Machine
  import opened Rates
  import opened UpdateBooks
  import Cranks

  // ---------- the stored price ----------

  lemma PriceIs(c: Chain, price: nat)
    requires Floors(price, 0x1_0000_0000, Backing(c), c.msolSupply)
    ensures Cranks.UpdatePrice(c)
         == if InPool(c) >= U64_LIMIT then Err(Overflow)
            else if price < U64_LIMIT then Ok(c.(msolPrice := price))
            else Err(CalculationFailure)
  {
    hide Backing, MsolToSol;
    WorthLamports(c, price, 0x1_0000_0000);
  }

  lemma PriceStored(c: Chain)
    requires Cranks.UpdatePrice(c).Ok?
    ensures var c' := Cranks.UpdatePrice(c).value;
            c' == c.(msolPrice := c'.msolPrice) && Floors(c'.msolPrice, 0x1_0000_0000, Backing(c'), c'.msolSupply)
  {
    FloorsOnce(0x1_0000_0000, Backing(c), c.msolSupply);
    var price: nat :| Floors(price, 0x1_0000_0000, Backing(c), c.msolSupply);
    PriceIs(c, price);
  }

  /** After every successful update, of rewards or a slash, the stored price is the value left when all open
      tickets are paid, for one unit of mSOL, in binary fractions of a lamport. */
  lemma StoredPriceExactly(c: Chain, now: Clock, a: Action)
    requires IsUpdate(a) && UpkeepStep(c, now, a).Ok?
    ensures var c' := UpkeepStep(c, now, a).value;
            Floors(c'.msolPrice, 0x1_0000_0000, Backing(c'), c'.msolSupply)
  {
    hide Cranks.BookActive, Cranks.BookDeactivated, Cranks.UpdatePrice, Floors, Backing;
    match a
    case UpdateActive(stakeIndex, index, key, ready) =>
      var c1 := Cranks.Begin(c);
      PriceStored(Cranks.BookActive(c1, now, stakeIndex, c1.stakeSystem.list[stakeIndex], index,
                                    c1.validatorSystem.list[index], c1.stakes[key], ready).value);
    case UpdateDeactivated(stakeIndex, key, ready) =>
      var c1 := Cranks.Begin(c);
      PriceStored(Cranks.BookDeactivated(c1, stakeIndex, c1.stakeSystem.list[stakeIndex], c1.stakes[key], ready).value);
  }

  // ---------- fees ----------

  /** The fee in mSOL on some lamports: what the fee on them in lamports buys, if the treasury can take it. */
  predicate FeeOn(fee: nat, cut: nat, lamports: nat, ready: bool, points: nat, backing: nat, supply: nat) {
    if ready then Floors(cut, lamports, points, 10_000) && Buys(fee, cut, backing, supply) else fee == 0
  }

  predicate FeeFits(c: Chain, fee: nat, ready: bool) {
    ready ==> InPool(c) < U64_LIMIT && c.msolMint + fee < U64_LIMIT && c.msolSupply + fee < U64_LIMIT
  }

  lemma FeesAre(c: Chain, lamports: nat, ready: bool, cut: nat, fee: nat)
    requires lamports < U64_LIMIT && c.config.rewardFee <= 10_000
    requires FeeOn(fee, cut, lamports, ready, c.config.rewardFee, Backing(c), c.msolSupply)
    ensures var r := Cranks.MintProtocolFees(c, lamports, ready);
            && (r.Ok? <==> FeeFits(c, fee, ready))
            && (r.Ok? ==> r.value == c.(msolMint := c.msolMint + fee, msolSupply := c.msolSupply + fee))
  {
    hide Backing, Floors, Buys, Portion, MsolFromLamports;
    if ready {
      FloorsPortion(cut, lamports, c.config.rewardFee, 10_000);
      BuysMsol(c, fee, cut);
    }
  }

  // ---------- update_active ----------

  /** The chain an update starts from: both virtual balances are the real ones. */
  function Resynced(c: Chain): Chain {
    c.(available := if c.reserve < c.config.rentExempt then 0 else c.reserve - c.config.rentExempt,
       stakingCap := if c.msolSupply < c.msolMint then 0 else c.stakingCap, msolSupply := c.msolMint)
  }

  /** Any state, also one with more mSOL about than the pool knows of, which then stops taking stake. */
  lemma BeginIsResynced(c: Chain)
    ensures Cranks.Begin(c) == Resynced(c)
  {
  }

  /** What an account holds over its stake and rent. */
  function Extra(account: StakeAccount): nat {
    if account.stake + account.rent < account.lamports then account.lamports - account.rent - account.stake else 0
  }

  function Withdrawn(c: Chain, key: Key, extra: nat): Chain
    requires key in c.stakes && extra <= c.stakes[key].lamports
  {
    c.(reserve := c.reserve + extra, available := c.available + extra,
       stakes := c.stakes[key := c.stakes[key].(lamports := c.stakes[key].lamports - extra)])
  }

  function Minted(c: Chain, fee: nat): Chain {
    c.(msolMint := c.msolMint + fee, msolSupply := c.msolSupply + fee)
  }

  lemma ExtraIs(c: Chain, key: Key, ready: bool, cut: nat, fee: nat)
    requires key in c.stakes && c.stakes[key].lamports < U64_LIMIT && c.config.rewardFee <= 10_000
    requires var extra := Extra(c.stakes[key]);
             FeeOn(fee, cut, extra, ready, c.config.rewardFee, LessTickets(c, InPool(c) + extra), c.msolSupply)
    ensures var extra := Extra(c.stakes[key]);
            var c1 := Withdrawn(c, key, extra);
            var r := Cranks.TakeExtra(c, key, extra, ready);
            && (extra == 0 ==> fee == 0)
            && (r.Ok? <==> (0 < extra ==> c.reserve + extra < U64_LIMIT && c.available + extra < U64_LIMIT
                                          && FeeFits(c1, fee, ready)))
            && (r.Ok? ==> r.value == Minted(c1, fee))
  {
    hide Floors, Buys, Cranks.MintProtocolFees;
    var extra := Extra(c.stakes[key]);
    var c1 := Withdrawn(c, key, extra);
    assert InPool(c1) == InPool(c) + extra;
    FeesAre(c1, extra, ready, cut, fee);
    if extra == 0 {
      NoFeeOnNothing(fee, cut, ready, c.config.rewardFee, Backing(c), c.msolSupply);
      assert c.stakes[key := c.stakes[key].(lamports := c.stakes[key].lamports - 0)] == c.stakes;
    }
  }

  lemma NoFeeOnNothing(fee: nat, cut: nat, ready: bool, points: nat, backing: nat, supply: nat)
    requires FeeOn(fee, cut, 0, ready, points, backing, supply)
    ensures fee == 0
  {
    if ready {
      CancelFactor(cut, 0, 10_000);
      if supply > 0 && backing > 0 {
        CancelFactor(fee, 0, backing);
      }
    }
  }

  /** A validator and the total follow a delegation, up or down. */
  function Followed(c: Chain, index: nat, before: nat, delegated: nat): Chain
    requires index < |c.validatorSystem.list|
    requires before <= c.validatorSystem.list[index].activeBalance <= c.validatorSystem.totalActive
  {
    var validator := c.validatorSystem.list[index];
    c.(validatorSystem := c.validatorSystem.(
         list := c.validatorSystem.list[
           index := validator.(activeBalance := validator.activeBalance - before + delegated)],
         totalActive := c.validatorSystem.totalActive - before + delegated))
  }

  /** A fee is due on rewards, and none on a slash. */
  predicate RewardFee(c: Chain, before: nat, delegated: nat, ready: bool, cut: nat, fee: nat) {
    if before <= delegated
    then FeeOn(fee, cut, delegated - before, ready, c.config.rewardFee, Backing(c), c.msolSupply)
    else fee == 0
  }

  lemma DelegationIs(c: Chain, index: nat, before: nat, delegated: nat, ready: bool, cut: nat, fee: nat)
    requires index < |c.validatorSystem.list| && delegated < U64_LIMIT && c.config.rewardFee <= 10_000
    requires before <= c.validatorSystem.list[index].activeBalance <= c.validatorSystem.totalActive
    requires RewardFee(c, before, delegated, ready, cut, fee)
    ensures var validator := c.validatorSystem.list[index];
            var r := Cranks.ObserveDelegation(c, index, validator, before, delegated, ready);
            && (r.Ok? <==>
                  (before <= delegated ==>
                     FeeFits(c, fee, ready) && validator.activeBalance - before + delegated < U64_LIMIT
                     && c.validatorSystem.totalActive - before + delegated < U64_LIMIT))
            && (r.Ok? ==> r.value == Followed(Minted(c, fee), index, before, delegated))
  {
    hide FeeOn, Backing, Cranks.MintProtocolFees;
    if before <= delegated {
      FeesAre(c, delegated - before, ready, cut, fee);
    }
  }

  /** The parts of an update of an active account, one after the other: extra lamports and their fee, the
      delegation and its fee. */
  function ActiveBooked(c: Chain, now: Clock, stakeIndex: nat, index: nat, key: Key, fee1: nat, fee2: nat): Chain
    requires Located(c, stakeIndex, index, key) && index < |c.validatorSystem.list|
    requires Coverable(c, stakeIndex, index)
  {
    var record, account := c.stakeSystem.list[stakeIndex], c.stakes[key];
    var c1 := Minted(Withdrawn(Resynced(c), key, Extra(account)), fee1);
    var c2 := Followed(Minted(c1, fee2), index, record.lamports, account.stake);
    c2.(stakeSystem := c.stakeSystem.(
          list := c.stakeSystem.list[stakeIndex := record.(epoch := now.epoch, lamports := account.stake)]))
  }

  predicate Located(c: Chain, stakeIndex: nat, index: nat, key: Key) {
    && stakeIndex < |c.stakeSystem.list| && c.stakeSystem.list[stakeIndex].account == key && key in c.stakes
  }

  predicate Coverable(c: Chain, stakeIndex: nat, index: nat)
    requires stakeIndex < |c.stakeSystem.list| && index < |c.validatorSystem.list|
  {
    c.stakeSystem.list[stakeIndex].lamports <= c.validatorSystem.list[index].activeBalance
      <= c.validatorSystem.totalActive
  }

  predicate ActiveFees(c: Chain, stakeIndex: nat, key: Key, ready: bool, cut1: nat, fee1: nat, cut2: nat, fee2: nat)
    requires Located(c, stakeIndex, 0, key)
  {
    var c0, account := Resynced(c), c.stakes[key];
    var c1 := Withdrawn(c0, key, Extra(account));
    && FeeOn(fee1, cut1, Extra(account), ready, c.config.rewardFee, Backing(c1), c.msolMint)
    && RewardFee(Minted(c1, fee1), c.stakeSystem.list[stakeIndex].lamports, account.stake, ready, cut2, fee2)
  }

  /** What an update of an active account asks for, ranges aside. */
  predicate ActiveUpdatable(c: Chain, stakeIndex: nat, index: nat, key: Key) {
    && !c.paused && Located(c, stakeIndex, index, key) && index < |c.validatorSystem.list|
    && c.validatorSystem.list[index].vote == c.stakes[key].voter && !c.stakes[key].deactivating
    && c.stakes[key].rent <= c.stakes[key].lamports
  }

  lemma UpdateActiveNeeds(c: Chain, now: Clock, stakeIndex: nat, index: nat, key: Key, ready: bool)
    requires Cranks.UpdateActive(c, now, stakeIndex, index, key, ready).Ok?
    ensures ActiveUpdatable(c, stakeIndex, index, key)
  {
    hide Cranks.TakeExtra, Cranks.ObserveDelegation, Cranks.UpdatePrice;
  }

  lemma UpdatableIsCovered(c: Chain, stakeIndex: nat, index: nat, key: Key)
    requires Books(c) && ActiveUpdatable(c, stakeIndex, index, key)
    ensures Coverable(c, stakeIndex, index)
  {
    ActiveCovered(c, stakeIndex, index);
  }

  predicate ActiveFits(c: Chain, stakeIndex: nat, index: nat, key: Key, ready: bool, fee1: nat, fee2: nat)
    requires ActiveUpdatable(c, stakeIndex, index, key) && Coverable(c, stakeIndex, index)
  {
    var c0, record, account := Resynced(c), c.stakeSystem.list[stakeIndex], c.stakes[key];
    var extra, validator := Extra(account), c.validatorSystem.list[index];
    var c1 := Withdrawn(c0, key, extra);
    && (0 < extra ==> c0.reserve + extra < U64_LIMIT && c0.available + extra < U64_LIMIT && FeeFits(c1, fee1, ready))
    && (record.lamports <= account.stake ==>
          FeeFits(Minted(c1, fee1), fee2, ready)
          && validator.activeBalance - record.lamports + account.stake < U64_LIMIT
          && c.validatorSystem.totalActive - record.lamports + account.stake < U64_LIMIT)
  }

  lemma ActiveBookedIs(c: Chain, now: Clock, stakeIndex: nat, index: nat, key: Key, ready: bool, cut1: nat, fee1: nat,
                       cut2: nat, fee2: nat)
    requires ActiveUpdatable(c, stakeIndex, index, key) && Coverable(c, stakeIndex, index)
    requires c.stakes[key].lamports < U64_LIMIT && c.stakes[key].stake < U64_LIMIT && c.config.rewardFee <= 10_000
    requires ActiveFees(c, stakeIndex, key, ready, cut1, fee1, cut2, fee2)
    ensures var r := Cranks.BookActive(Resynced(c), now, stakeIndex, c.stakeSystem.list[stakeIndex], index,
                                       c.validatorSystem.list[index], c.stakes[key], ready);
            && (r.Ok? <==> ActiveFits(c, stakeIndex, index, key, ready, fee1, fee2))
            && (r.Ok? ==> r.value == ActiveBooked(c, now, stakeIndex, index, key, fee1, fee2))
  {
    hide FeeOn, FeeFits, Backing, Cranks.TakeExtra, Cranks.ObserveDelegation;
    var c0, record, account := Resynced(c), c.stakeSystem.list[stakeIndex], c.stakes[key];
    var c1 := Withdrawn(c0, key, Extra(account));
    BackingWithdrawn(c0, key, Extra(account));
    ExtraIs(c0, key, ready, cut1, fee1);
    DelegationIs(Minted(c1, fee1), index, record.lamports, account.stake, ready, cut2, fee2);
  }

  lemma BackingWithdrawn(c: Chain, key: Key, extra: nat)
    requires key in c.stakes && extra <= c.stakes[key].lamports
    ensures Backing(Withdrawn(c, key, extra)) == LessTickets(c, InPool(c) + extra)
  {
  }

  /** An update of an active account takes its extra lamports to the reserve and its delegation, up or down,
      to the books; the treasury's two fees are minted at the value before each; and the price is stored. */
  lemma UpdateActiveExactly(c: Chain, now: Clock, stakeIndex: nat, index: nat, key: Key, ready: bool, cut1: nat,
                            fee1: nat, cut2: nat, fee2: nat, price: nat)
    requires Inv(c) && ActiveUpdatable(c, stakeIndex, index, key)
    requires c.stakes[key].lamports < U64_LIMIT && c.stakes[key].stake < U64_LIMIT
    requires ActiveFees(c, stakeIndex, key, ready, cut1, fee1, cut2, fee2)
    requires Coverable(c, stakeIndex, index) ==>
               var booked := ActiveBooked(c, now, stakeIndex, index, key, fee1, fee2);
               Floors(price, 0x1_0000_0000, Backing(booked), booked.msolSupply)
    ensures Coverable(c, stakeIndex, index)
    ensures var r := Cranks.UpdateActive(c, now, stakeIndex, index, key, ready);
            var booked := ActiveBooked(c, now, stakeIndex, index, key, fee1, fee2);
            && (r.Ok? <==>
                  InPool(c) < U64_LIMIT && c.available + c.config.rentExempt < U64_LIMIT
                  && ActiveFits(c, stakeIndex, index, key, ready, fee1, fee2)
                  && InPool(booked) < U64_LIMIT && price < U64_LIMIT)
            && (r.Ok? ==> r.value == booked.(msolPrice := price))
  {
    hide Books, TicketTotals, ActiveFees, Backing, Floors, Cranks.BookActive, Cranks.UpdatePrice;
    UpdatableIsCovered(c, stakeIndex, index, key);
    ActiveBookedIs(c, now, stakeIndex, index, key, ready, cut1, fee1, cut2, fee2);
    PriceIs(ActiveBooked(c, now, stakeIndex, index, key, fee1, fee2), price);
  }

  // ---------- update_deactivated ----------

  predicate CooledUpdatable(c: Chain, stakeIndex: nat, key: Key) {
    && !c.paused && Located(c, stakeIndex, 0, key) && c.stakes[key].deactivating
    && c.stakes[key].rent <= c.stakes[key].lamports
  }

  lemma UpdateDeactivatedNeeds(c: Chain, stakeIndex: nat, key: Key, ready: bool)
    requires Cranks.UpdateDeactivated(c, stakeIndex, key, ready).Ok?
    ensures CooledUpdatable(c, stakeIndex, key)
  {
    hide Cranks.CooledFees, Cranks.CloseCooled, Cranks.UpdatePrice;
  }

  /** The cooling total of the record's kind covers it. */
  predicate CoolingCovers(c: Chain, record: StakeRecord) {
    record.lamports <= if record.emergency == 0 then c.stakeSystem.delayedCooling else c.emergencyCooling
  }

  /** All lamports but the rent go to the reserve; the account and its record go, and its cooling total
      loses what the record said. */
  function CooledBooked(c: Chain, stakeIndex: nat, key: Key, fee: nat): Chain
    requires CooledUpdatable(c, stakeIndex, key) && CoolingCovers(c, c.stakeSystem.list[stakeIndex])
  {
    var record, account := c.stakeSystem.list[stakeIndex], c.stakes[key];
    var c1, balance := Minted(Resynced(c), fee), account.lamports - account.rent;
    c1.(reserve := c1.reserve + balance, available := c1.available + balance, stakes := c.stakes - {key},
        emergencyCooling := if record.emergency == 0 then c.emergencyCooling
                            else c.emergencyCooling - record.lamports,
        stakeSystem := c.stakeSystem.(
          list := SwapRemove(c.stakeSystem.list, stakeIndex),
          delayedCooling := if record.emergency == 0 then c.stakeSystem.delayedCooling - record.lamports
                            else c.stakeSystem.delayedCooling))
  }

  lemma UpdatableIsCooling(c: Chain, stakeIndex: nat, key: Key)
    requires Books(c) && CooledUpdatable(c, stakeIndex, key)
    ensures CoolingCovers(c, c.stakeSystem.list[stakeIndex])
  {
    LeaveCoolingIsExact(c, stakeIndex, c.stakeSystem.list[stakeIndex], c);
  }

  lemma DrainIs(c: Chain, key: Key)
    requires key in c.stakes && c.stakes[key].rent <= c.stakes[key].lamports
    ensures var account := c.stakes[key];
            var r := Cranks.Drain(c, key, account);
            && (r.Ok? <==> (0 < account.lamports ==>
                              c.reserve + account.lamports < U64_LIMIT && c.available + account.lamports < U64_LIMIT))
            && (r.Ok? ==>
                  r.value == c.(reserve := c.reserve + (account.lamports - account.rent),
                                available := c.available + (account.lamports - account.rent),
                                stakes := r.value.stakes)
                  && r.value.stakes - {key} == c.stakes - {key})
  {
  }

  lemma CooledFeeIs(c: Chain, before: nat, balance: nat, ready: bool, cut: nat, fee: nat)
    requires balance < U64_LIMIT && c.config.rewardFee <= 10_000 && RewardFee(c, before, balance, ready, cut, fee)
    ensures var r := Cranks.CooledFees(c, before, balance, ready);
            && (r.Ok? <==> (before <= balance ==> FeeFits(c, fee, ready)))
            && (r.Ok? ==> r.value == Minted(c, fee))
  {
    hide FeeOn, FeeFits, Backing, Cranks.MintProtocolFees;
    if before <= balance {
      FeesAre(c, balance - before, ready, cut, fee);
    }
  }

  predicate CooledFits(c: Chain, stakeIndex: nat, key: Key, ready: bool, fee: nat)
    requires CooledUpdatable(c, stakeIndex, key)
  {
    var c0, account := Resynced(c), c.stakes[key];
    && (c.stakeSystem.list[stakeIndex].lamports <= account.lamports - account.rent ==> FeeFits(c0, fee, ready))
    && (0 < account.lamports ==>
          c0.reserve + account.lamports < U64_LIMIT && c0.available + account.lamports < U64_LIMIT)
  }

  lemma CooledBookedIs(c: Chain, stakeIndex: nat, key: Key, ready: bool, cut: nat, fee: nat)
    requires CooledUpdatable(c, stakeIndex, key) && CoolingCovers(c, c.stakeSystem.list[stakeIndex])
    requires c.stakes[key].lamports < U64_LIMIT && c.config.rewardFee <= 10_000
    requires RewardFee(Resynced(c), c.stakeSystem.list[stakeIndex].lamports,
                       c.stakes[key].lamports - c.stakes[key].rent, ready, cut, fee)
    ensures var r := Cranks.BookDeactivated(Resynced(c), stakeIndex, c.stakeSystem.list[stakeIndex], c.stakes[key],
                                            ready);
            && (r.Ok? <==> CooledFits(c, stakeIndex, key, ready, fee))
            && (r.Ok? ==> r.value == CooledBooked(c, stakeIndex, key, fee))
  {
    hide RewardFee, FeeFits, Cranks.CooledFees, Cranks.Drain, SwapRemove;
    var c0, record, account := Resynced(c), c.stakeSystem.list[stakeIndex], c.stakes[key];
    CooledFeeIs(c0, record.lamports, account.lamports - account.rent, ready, cut, fee);
    DrainIs(Minted(c0, fee), key);
  }

  /** An update of a cooled-down account brings all it holds but the rent to the reserve, mints the
      treasury's fee at the value before, and stores the price. */
  lemma UpdateDeactivatedExactly(c: Chain, stakeIndex: nat, key: Key, ready: bool, cut: nat, fee: nat, price: nat)
    requires Inv(c) && CooledUpdatable(c, stakeIndex, key) && c.stakes[key].lamports < U64_LIMIT
    requires RewardFee(Resynced(c), c.stakeSystem.list[stakeIndex].lamports,
                       c.stakes[key].lamports - c.stakes[key].rent, ready, cut, fee)
    requires CoolingCovers(c, c.stakeSystem.list[stakeIndex]) ==>
               var booked := CooledBooked(c, stakeIndex, key, fee);
               Floors(price, 0x1_0000_0000, Backing(booked), booked.msolSupply)
    ensures CoolingCovers(c, c.stakeSystem.list[stakeIndex])
    ensures var r, booked := Cranks.UpdateDeactivated(c, stakeIndex, key, ready), CooledBooked(c, stakeIndex, key, fee);
            && (r.Ok? <==>
                  InPool(c) < U64_LIMIT && c.available + c.config.rentExempt < U64_LIMIT
                  && CooledFits(c, stakeIndex, key, ready, fee) && InPool(booked) < U64_LIMIT && price < U64_LIMIT)
            && (r.Ok? ==> r.value == booked.(msolPrice := price))
  {
    hide Books, TicketTotals, RewardFee, Backing, Floors, Cranks.BookDeactivated, Cranks.UpdatePrice;
    UpdatableIsCooling(c, stakeIndex, key);
    CooledBookedIs(c, stakeIndex, key, ready, cut, fee);
    PriceIs(CooledBooked(c, stakeIndex, key, fee), price);
  }
}
