/** What the rebalancing cranks do, exactly: when each of them acts, on how much, and the whole chain
    afterwards. */
module CrankEffects {
  import opened Results
  import opened Calc
  import opened Sums
  import opened Records
  import opened State
  import opened Ledger
  import opened Rates
  import Cranks

  // ---------- deltas and targets ----------

  /** What is to be staked, or unstaked if negative: the real reserve and what cools down for it, less the
      tickets; what cools down in emergency counts only to save unstaking. */
  function Delta(c: Chain): int {
    var free := if c.reserve < c.config.rentExempt then 0 else c.reserve - c.config.rentExempt;
    var raw := free + c.stakeSystem.delayedCooling - c.ticketBalance;
    if raw >= 0 then raw
    else if raw + c.emergencyCooling > 0 then 0
    else raw + c.emergencyCooling
  }

  /** A validator's part of a total by its score, rounded down. */
  predicate HasTarget(system: ValidatorSystem, validator: ValidatorRecord, total: nat, target: nat) {
    if system.totalScore == 0 then target == 0 else Floors(target, total, validator.score, system.totalScore)
  }

  lemma TargetIs(system: ValidatorSystem, validator: ValidatorRecord, total: nat, target: nat)
    requires HasTarget(system, validator, total, target) && validator.score <= system.totalScore && total < U64_LIMIT
    ensures StakeTarget(system, validator, total) == Ok(target) && target <= total
  {
    if system.totalScore > 0 {
      FloorsProportional(target, total, validator.score, system.totalScore);
      MulMono(validator.score, system.totalScore, total);
      assert target * system.totalScore <= total * validator.score <= total * system.totalScore by {
        assert total * validator.score == validator.score * total;
      }
      CancelFactor(target, total, system.totalScore);
    }
  }

  lemma ScoreListed(c: Chain, index: nat)
    requires Books(c) && index < |c.validatorSystem.list|
    ensures c.validatorSystem.list[index].score <= c.validatorSystem.totalScore
    ensures c.validatorSystem.totalActive < U64_LIMIT
  {
    SumMember(c.validatorSystem.list, Score(), index);
  }

  // ---------- the cap on moves ----------

  /** The counter after moving `amount` now: it starts again in a new epoch. */
  function CountOf(c: Chain, now: Clock, amount: nat): nat {
    amount + if now.epoch == c.lastMoveEpoch then c.stakeMoved else 0
  }

  /** The move is within the cap, a part of all lamports of the pool in ten-thousandths. */
  predicate WithinCap(c: Chain, now: Clock, amount: nat, cap: nat) {
    CountOf(c, now, amount) < U64_LIMIT && InPool(c) < U64_LIMIT && CountOf(c, now, amount) <= cap % U64_LIMIT
  }

  function Counted(c: Chain, now: Clock, amount: nat): Chain {
    c.(lastMoveEpoch := now.epoch, stakeMoved := CountOf(c, now, amount))
  }

  /** A move is counted, and refused exactly when the counter would exceed the cap. */
  lemma MoveIsCapped(c: Chain, amount: nat, now: Clock, cap: nat)
    requires Floors(cap, InPool(c), c.config.maxMoved, 10_000)
    ensures var r := OnStakeMoved(c, amount, now);
            && (r.Ok? <==> WithinCap(c, now, amount, cap))
            && (r.Ok? ==> r.value == Counted(c, now, amount))
            && (CountOf(c, now, amount) < U64_LIMIT && InPool(c) < U64_LIMIT ==>
                  (r == Err(MovingStakeIsCapped) <==> cap % U64_LIMIT < CountOf(c, now, amount)))
  {
    assert (cap + 1) * 10_000 == cap * 10_000 + 10_000;
    QuotientIs(InPool(c) * c.config.maxMoved, 10_000, cap);
  }

  /** With a cap of at most all lamports nothing is cut off it. */
  lemma CapFits(c: Chain, cap: nat)
    requires Floors(cap, InPool(c), c.config.maxMoved, 10_000) && c.config.maxMoved <= 10_000 && InPool(c) < U64_LIMIT
    ensures cap % U64_LIMIT == cap <= InPool(c)
  {
    MulMono(c.config.maxMoved, 10_000, InPool(c));
    assert InPool(c) * c.config.maxMoved == c.config.maxMoved * InPool(c);
    CancelFactor(cap, InPool(c), 10_000);
  }

  // ---------- stake_reserve ----------

  /** How much of the delta goes to a validator `gap` under its target: nothing if that is less than a minimum
      stake; and all of it rather than leave less than a minimum stake. */
  function Staked(delta: nat, gap: int, minStake: nat): nat {
    if gap <= 0 then 0
    else
      var most := if gap < delta then gap else delta;
      var amount := if delta - most < minStake then delta else most;
      if amount < minStake then 0 else amount
  }

  lemma ReservePlanIs(c: Chain, index: nat, delta: nat, target: nat)
    requires Books(c) && index < |c.validatorSystem.list| && 0 < delta && 0 < c.stakeSystem.minStake
    requires var total := c.validatorSystem.totalActive + delta;
             HasTarget(c.validatorSystem, c.validatorSystem.list[index],
                       if total < U64_LIMIT then total else U64_LIMIT - 1, target)
    ensures var validator := c.validatorSystem.list[index];
            var amount := Staked(delta, target - validator.activeBalance, c.stakeSystem.minStake);
            Cranks.ReservePlan(c, validator, delta) == Ok(if amount == 0 then Cranks.Skip else Cranks.Part(amount))
  {
    hide Books, StakeTarget, HasTarget;
    var total := c.validatorSystem.totalActive + delta;
    ScoreListed(c, index);
    TargetIs(c.validatorSystem, c.validatorSystem.list[index], if total < U64_LIMIT then total else U64_LIMIT - 1,
             target);
  }

  /** The reserve pays for a new account of the validator, which is marked as staked to in this epoch. */
  function NewStake(c: Chain, now: Clock, index: nat, amount: nat, newKey: Key, rent: nat): Chain
    requires index < |c.validatorSystem.list| && amount <= c.available && amount <= c.reserve
  {
    var validator := c.validatorSystem.list[index];
    c.(reserve := c.reserve - amount, available := c.available - amount,
       stakes := c.stakes[newKey := StakeAccount(validator.vote, false, amount, rent + amount, rent)],
       stakeSystem := c.stakeSystem.(
         list := c.stakeSystem.list + [StakeRecord(newKey, amount, now.epoch, 0)], lastDeltaEpoch := now.epoch),
       validatorSystem := c.validatorSystem.(
         list := c.validatorSystem.list[
           index := validator.(activeBalance := validator.activeBalance + amount, lastDeltaEpoch := now.epoch)],
         totalActive := c.validatorSystem.totalActive + amount))
  }

  lemma StakeIs(c: Chain, now: Clock, index: nat, amount: nat, newKey: Key, rent: nat)
    requires index < |c.validatorSystem.list| && newKey !in c.stakes && c.available <= c.reserve
    ensures var validator := c.validatorSystem.list[index];
            var r := Cranks.Stake(c, now, index, validator, amount, newKey, rent);
            && (r.Ok? <==>
                  amount <= c.available && |c.stakeSystem.list| < c.stakeSystem.capacity
                  && validator.activeBalance + amount < U64_LIMIT && c.validatorSystem.totalActive + amount < U64_LIMIT)
            && (r.Ok? ==> r.value == NewStake(c, now, index, amount, newKey, rent))
  {
  }

  /** The chain once an extra run is spent on a validator staked to in this epoch. */
  function RunSpent(c: Chain, again: bool): Chain {
    if again && c.stakeSystem.extraRuns > 0
    then c.(stakeSystem := c.stakeSystem.(extraRuns := c.stakeSystem.extraRuns - 1))
    else c
  }

  predicate Vacant(c: Chain, key: Key) {
    !c.paused && key !in c.stakes
  }

  /** Nothing is staked unless something is to be staked, and nothing a second time in an epoch without an
      extra run; otherwise the validator gets what it lacks, as far as there is, or nothing. */
  lemma StakeReserveExactly(c: Chain, now: Clock, index: nat, newKey: Key, rent: nat, target: nat)
    requires Inv(c) && Vacant(c, newKey) && index < |c.validatorSystem.list| && Delta(c) < U64_LIMIT
    requires 0 < Delta(c) ==>
               var total := c.validatorSystem.totalActive + Delta(c);
               HasTarget(c.validatorSystem, c.validatorSystem.list[index],
                         if total < U64_LIMIT then total else U64_LIMIT - 1, target)
    ensures var validator := c.validatorSystem.list[index];
            var again := validator.lastDeltaEpoch == now.epoch;
            var amount := Staked(if Delta(c) < 0 then 0 else Delta(c), target - validator.activeBalance,
                                 c.stakeSystem.minStake);
            var r, c1 := Cranks.StakeReserve(c, now, index, validator.vote, newKey, rent), RunSpent(c, again);
            && (Delta(c) <= 0 || (again && c.stakeSystem.extraRuns == 0) ==> r == Ok(c))
            && (0 < Delta(c) && (again ==> 0 < c.stakeSystem.extraRuns) ==>
                  if now.slot + c.stakeSystem.slots < now.lastSlot then r == Err(TooEarlyForStakeDelta)
                  else if amount == 0 then r == Ok(c1)
                  else
                    && (r.Ok? <==>
                          amount <= c.available && |c.stakeSystem.list| < c.stakeSystem.capacity
                          && validator.activeBalance + amount < U64_LIMIT
                          && c.validatorSystem.totalActive + amount < U64_LIMIT)
                    && (r.Ok? ==> r.value == NewStake(c1, now, index, amount, newKey, rent)))
  {
    hide Books, TicketTotals, HasTarget, Cranks.ReservePlan, Cranks.Stake, NewStake;
    var validator := c.validatorSystem.list[index];
    if 0 < Delta(c) {
      var c1 := RunSpent(c, validator.lastDeltaEpoch == now.epoch);
      var amount := Staked(Delta(c), target - validator.activeBalance, c.stakeSystem.minStake);
      ReservePlanIs(c, index, Delta(c), target);
      SamePlan(c, c1, validator, Delta(c));
      StakeIs(c1, now, index, amount, newKey, rent);
    }
  }

  lemma SamePlan(c: Chain, c1: Chain, validator: ValidatorRecord, delta: nat)
    requires c1.validatorSystem == c.validatorSystem && c1.stakeSystem.minStake == c.stakeSystem.minStake
    ensures Cranks.ReservePlan(c1, validator, delta) == Cranks.ReservePlan(c, validator, delta)
  {
  }

  lemma StakeReserveNeeds(c: Chain, now: Clock, index: nat, vote: Key, newKey: Key, rent: nat)
    requires Cranks.StakeReserve(c, now, index, vote, newKey, rent).Ok?
    ensures Vacant(c, newKey) && Delta(c) < U64_LIMIT
    ensures 0 < Delta(c) ==> index < |c.validatorSystem.list| && c.validatorSystem.list[index].vote == vote
  {
    hide Cranks.StakeByPlan;
  }

  // ---------- stake accounts ----------

  /** The record is for the account, the validator for its vote, and the record is up to date. */
  predicate Matches(c: Chain, stakeIndex: nat, index: nat, key: Key) {
    && stakeIndex < |c.stakeSystem.list| && c.stakeSystem.list[stakeIndex].account == key
    && index < |c.validatorSystem.list| && key in c.stakes
    && c.stakes[key].voter == c.validatorSystem.list[index].vote
    && c.stakes[key].stake == c.stakeSystem.list[stakeIndex].lamports
  }

  lemma MatchIsCovered(c: Chain, stakeIndex: nat, index: nat, key: Key)
    requires Books(c) && Matches(c, stakeIndex, index, key) && !c.stakes[key].deactivating
    ensures var record, validator := c.stakeSystem.list[stakeIndex], c.validatorSystem.list[index];
            record.lamports <= validator.activeBalance <= c.validatorSystem.totalActive && record.emergency == 0
  {
    ActiveCovered(c, stakeIndex, index);
  }

  function Stopped(account: StakeAccount): StakeAccount {
    account.(deactivating := true)
  }

  /** What stays of an account when some of its stake is split off. */
  function Kept(account: StakeAccount, amount: nat): StakeAccount
    requires amount <= account.stake && amount <= account.lamports
  {
    account.(stake := account.stake - amount, lamports := account.lamports - amount)
  }

  lemma SplitStopped(stakes: map<Key, StakeAccount>, key: Key, amount: nat, splitKey: Key, rent: nat)
    requires key in stakes && splitKey !in stakes && amount <= stakes[key].stake
    ensures var split := SplitStake(stakes, key, amount, splitKey, rent);
            && (split.Ok? <==> amount <= stakes[key].lamports)
            && (split.Ok? ==>
                  && (StartDeactivation(split.value, splitKey).Ok? <==> !stakes[key].deactivating)
                  && (!stakes[key].deactivating ==>
                        StartDeactivation(split.value, splitKey)
                        == Ok(stakes[key := Kept(stakes[key], amount)]
                                    [splitKey := StakeAccount(stakes[key].voter, true, amount, rent + amount, rent)])))
  {
    if amount <= stakes[key].lamports && !stakes[key].deactivating {
      var split := SplitStake(stakes, key, amount, splitKey, rent).value;
      assert split[splitKey := Stopped(split[splitKey])]
          == stakes[key := Kept(stakes[key], amount)]
                   [splitKey := StakeAccount(stakes[key].voter, true, amount, rent + amount, rent)];
    }
  }

  // ---------- deactivate_stake ----------

  /** The whole account starts to cool down. */
  function WholeStopped(c: Chain, now: Clock, stakeIndex: nat, index: nat, key: Key): Chain
    requires Matches(c, stakeIndex, index, key)
    requires c.stakeSystem.list[stakeIndex].lamports <= c.validatorSystem.list[index].activeBalance
    requires c.validatorSystem.list[index].activeBalance <= c.validatorSystem.totalActive
  {
    var record, validator := c.stakeSystem.list[stakeIndex], c.validatorSystem.list[index];
    c.(stakes := c.stakes[key := Stopped(c.stakes[key])],
       stakeSystem := c.stakeSystem.(
         lastDeltaEpoch := now.epoch, delayedCooling := c.stakeSystem.delayedCooling + record.lamports),
       validatorSystem := c.validatorSystem.(
         list := c.validatorSystem.list[
           index := validator.(activeBalance := validator.activeBalance - record.lamports)],
         totalActive := c.validatorSystem.totalActive - record.lamports))
  }

  /** Part of it does, in a new account with a record of its own, and the validator is marked for the epoch. */
  function PartStopped(c: Chain, now: Clock, stakeIndex: nat, index: nat, key: Key, amount: nat, splitKey: Key,
                       rent: nat): Chain
    requires Matches(c, stakeIndex, index, key) && amount <= c.stakes[key].stake && amount <= c.stakes[key].lamports
    requires c.stakeSystem.list[stakeIndex].lamports <= c.validatorSystem.list[index].activeBalance
    requires c.validatorSystem.list[index].activeBalance <= c.validatorSystem.totalActive
  {
    var record, validator := c.stakeSystem.list[stakeIndex], c.validatorSystem.list[index];
    c.(stakes := c.stakes[key := Kept(c.stakes[key], amount)]
                         [splitKey := StakeAccount(validator.vote, true, amount, rent + amount, rent)],
       stakeSystem := c.stakeSystem.(
         list := c.stakeSystem.list[stakeIndex := record.(lamports := record.lamports - amount)]
                 + [StakeRecord(splitKey, amount, now.epoch, 0)],
         lastDeltaEpoch := now.epoch, delayedCooling := c.stakeSystem.delayedCooling + amount),
       validatorSystem := c.validatorSystem.(
         list := c.validatorSystem.list[
           index := validator.(activeBalance := validator.activeBalance - amount, lastDeltaEpoch := now.epoch)],
         totalActive := c.validatorSystem.totalActive - amount))
  }

  lemma WholeStoppedIs(c: Chain, now: Clock, stakeIndex: nat, index: nat, key: Key)
    requires Books(c) && Matches(c, stakeIndex, index, key)
    ensures var record, validator := c.stakeSystem.list[stakeIndex], c.validatorSystem.list[index];
            var r := Cranks.DeactivateWhole(c, now, stakeIndex, record, index, validator);
            && (r.Ok? <==>
                  !c.stakes[key].deactivating && c.stakeSystem.delayedCooling + record.lamports < U64_LIMIT)
            && (r.Ok? ==>
                  && record.lamports <= validator.activeBalance <= c.validatorSystem.totalActive
                  && r.value == WholeStopped(c, now, stakeIndex, index, key))
  {
    hide Books;
    if !c.stakes[key].deactivating {
      MatchIsCovered(c, stakeIndex, index, key);
    }
  }

  lemma PartStoppedIs(c: Chain, now: Clock, stakeIndex: nat, index: nat, key: Key, amount: nat, splitKey: Key,
                      rent: nat)
    requires Books(c) && Matches(c, stakeIndex, index, key) && splitKey !in c.stakes
    requires amount <= c.stakeSystem.list[stakeIndex].lamports
    ensures var record, validator := c.stakeSystem.list[stakeIndex], c.validatorSystem.list[index];
            var r := Cranks.DeactivatePart(c, now, stakeIndex, record, index, validator, amount, splitKey, rent);
            && (r.Ok? <==>
                  !c.stakes[key].deactivating && amount <= c.stakes[key].lamports
                  && |c.stakeSystem.list| < c.stakeSystem.capacity
                  && c.stakeSystem.delayedCooling + amount < U64_LIMIT)
            && (r.Ok? ==>
                  && record.lamports <= validator.activeBalance <= c.validatorSystem.totalActive
                  && r.value == PartStopped(c, now, stakeIndex, index, key, amount, splitKey, rent))
  {
    hide Books, SplitStake, StartDeactivation;
    var record, validator := c.stakeSystem.list[stakeIndex], c.validatorSystem.list[index];
    SplitStopped(c.stakes, key, amount, splitKey, rent);
    if !c.stakes[key].deactivating {
      MatchIsCovered(c, stakeIndex, index, key);
      var rest, split := record.(lamports := record.lamports - amount), StakeRecord(splitKey, amount, now.epoch, 0);
      assert (c.stakeSystem.list + [split])[stakeIndex := rest] == c.stakeSystem.list[stakeIndex := rest] + [split];
    }
  }

  /** Up to the delta and the excess of the validator is unstaked: the whole account if less than twice the
      minimum stake would stay in it, and a part otherwise, once an epoch. */
  lemma DeactivateStakeExactly(c: Chain, now: Clock, stakeIndex: nat, index: nat, key: Key, splitKey: Key, rent: nat,
                               target: nat)
    requires Inv(c) && Vacant(c, splitKey) && Matches(c, stakeIndex, index, key)
    requires c.stakeSystem.list[stakeIndex].emergency == 0
    requires Delta(c) < 0 && -Delta(c) < U64_LIMIT && 2 * c.stakeSystem.minStake < U64_LIMIT
    requires var total := c.validatorSystem.totalActive + Delta(c);
             HasTarget(c.validatorSystem, c.validatorSystem.list[index], if total < 0 then 0 else total, target)
    ensures var record, validator := c.stakeSystem.list[stakeIndex], c.validatorSystem.list[index];
            var excess := validator.activeBalance - target;
            var most := if excess < -Delta(c) then excess else -Delta(c);
            var r := Cranks.DeactivateStake(c, now, stakeIndex, index, key, splitKey, rent);
            if excess <= 0 then r == Ok(c)
            else if record.lamports < most + 2 * c.stakeSystem.minStake then
              r == Cranks.DeactivateWhole(c, now, stakeIndex, record, index, validator)
            else if validator.lastDeltaEpoch == now.epoch then r == Ok(c)
            else r == Cranks.DeactivatePart(c, now, stakeIndex, record, index, validator, most, splitKey, rent)
  {
    hide Books, TicketTotals, HasTarget, StakeTarget, Cranks.DeactivateWhole, Cranks.DeactivatePart;
    var total := c.validatorSystem.totalActive + Delta(c);
    ScoreListed(c, index);
    TargetIs(c.validatorSystem, c.validatorSystem.list[index], if total < 0 then 0 else total, target);
  }

  lemma DeactivateStakeNeeds(c: Chain, now: Clock, stakeIndex: nat, index: nat, key: Key, splitKey: Key, rent: nat)
    requires Cranks.DeactivateStake(c, now, stakeIndex, index, key, splitKey, rent).Ok?
    ensures Vacant(c, splitKey) && Matches(c, stakeIndex, index, key) && Delta(c) < 0 && -Delta(c) < U64_LIMIT
    ensures c.stakeSystem.list[stakeIndex].emergency == 0
  {
    hide Cranks.DeactivatePlan, Cranks.DeactivateWhole, Cranks.DeactivatePart;
  }

  // ---------- emergency_unstake and partial_unstake ----------

  /** The whole account starts to cool down in emergency, and its record is flagged. */
  function WholeFlagged(c: Chain, now: Clock, stakeIndex: nat, index: nat, key: Key): Chain
    requires Matches(c, stakeIndex, index, key)
    requires c.stakeSystem.list[stakeIndex].lamports <= c.validatorSystem.list[index].activeBalance
    requires c.validatorSystem.list[index].activeBalance <= c.validatorSystem.totalActive
  {
    var record, validator := c.stakeSystem.list[stakeIndex], c.validatorSystem.list[index];
    Counted(c, now, record.lamports).(
      stakes := c.stakes[key := Stopped(c.stakes[key])],
      emergencyCooling := c.emergencyCooling + record.lamports,
      stakeSystem := c.stakeSystem.(list := c.stakeSystem.list[stakeIndex := record.(emergency := 1)]),
      validatorSystem := c.validatorSystem.(
        list := c.validatorSystem.list[
          index := validator.(activeBalance := validator.activeBalance - record.lamports)],
        totalActive := c.validatorSystem.totalActive - record.lamports))
  }

  function PartFlagged(c: Chain, now: Clock, stakeIndex: nat, index: nat, key: Key, amount: nat, splitKey: Key,
                       rent: nat): Chain
    requires Matches(c, stakeIndex, index, key) && amount <= c.stakes[key].stake && amount <= c.stakes[key].lamports
    requires c.stakeSystem.list[stakeIndex].lamports <= c.validatorSystem.list[index].activeBalance
    requires c.validatorSystem.list[index].activeBalance <= c.validatorSystem.totalActive
  {
    var record, validator := c.stakeSystem.list[stakeIndex], c.validatorSystem.list[index];
    Counted(c, now, amount).(
      stakes := c.stakes[key := Kept(c.stakes[key], amount)]
                        [splitKey := StakeAccount(validator.vote, true, amount, rent + amount, rent)],
      emergencyCooling := c.emergencyCooling + amount,
      stakeSystem := c.stakeSystem.(
        list := c.stakeSystem.list[stakeIndex := record.(lamports := record.lamports - amount)]
                + [StakeRecord(splitKey, amount, now.epoch, 1)]),
      validatorSystem := c.validatorSystem.(
        list := c.validatorSystem.list[
          index := validator.(activeBalance := validator.activeBalance - amount)],
        totalActive := c.validatorSystem.totalActive - amount))
  }

  /** Any account of a validator without a score may be unstaked in emergency, within the cap. */
  lemma EmergencyUnstakeExactly(c: Chain, now: Clock, stakeIndex: nat, index: nat, key: Key, cap: nat)
    requires Books(c) && Floors(cap, InPool(c), c.config.maxMoved, 10_000)
    ensures var r := Cranks.EmergencyUnstake(c, now, stakeIndex, index, key);
            && (r.Ok? <==>
                  && !c.paused && Matches(c, stakeIndex, index, key) && !c.stakes[key].deactivating
                  && c.validatorSystem.list[index].score == 0
                  && WithinCap(c, now, c.stakeSystem.list[stakeIndex].lamports, cap)
                  && c.emergencyCooling + c.stakeSystem.list[stakeIndex].lamports < U64_LIMIT)
            && (r.Ok? ==>
                  && c.stakeSystem.list[stakeIndex].lamports <= c.validatorSystem.list[index].activeBalance
                  && c.validatorSystem.list[index].activeBalance <= c.validatorSystem.totalActive
                  && r.value == WholeFlagged(c, now, stakeIndex, index, key))
  {
    hide Books, OnStakeMoved, WithinCap, Floors;
    if Matches(c, stakeIndex, index, key) {
      MoveIsCapped(c, c.stakeSystem.list[stakeIndex].lamports, now, cap);
      if !c.stakes[key].deactivating {
        MatchIsCovered(c, stakeIndex, index, key);
      }
    }
  }

  lemma WholeFlaggedIs(c: Chain, now: Clock, stakeIndex: nat, index: nat, key: Key, cap: nat)
    requires Books(c) && Matches(c, stakeIndex, index, key) && Floors(cap, InPool(c), c.config.maxMoved, 10_000)
    ensures var record, validator := c.stakeSystem.list[stakeIndex], c.validatorSystem.list[index];
            var r := Cranks.PartialWhole(c, now, stakeIndex, record, index, validator);
            && (r.Ok? <==>
                  !c.stakes[key].deactivating && WithinCap(c, now, record.lamports, cap)
                  && c.emergencyCooling + record.lamports < U64_LIMIT)
            && (r.Ok? ==>
                  && record.lamports <= validator.activeBalance <= c.validatorSystem.totalActive
                  && r.value == WholeFlagged(c, now, stakeIndex, index, key))
  {
    hide Books, OnStakeMoved, WithinCap, Floors;
    MoveIsCapped(c, c.stakeSystem.list[stakeIndex].lamports, now, cap);
    if !c.stakes[key].deactivating {
      MatchIsCovered(c, stakeIndex, index, key);
    }
  }

  lemma PartFlaggedIs(c: Chain, now: Clock, stakeIndex: nat, index: nat, key: Key, amount: nat, splitKey: Key,
                      rent: nat, cap: nat)
    requires Books(c) && Matches(c, stakeIndex, index, key) && splitKey !in c.stakes
    requires amount <= c.stakeSystem.list[stakeIndex].lamports && Floors(cap, InPool(c), c.config.maxMoved, 10_000)
    ensures var record, validator := c.stakeSystem.list[stakeIndex], c.validatorSystem.list[index];
            var r := Cranks.PartialPart(c, now, stakeIndex, record, index, validator, amount, splitKey, rent);
            && (r.Ok? <==>
                  !c.stakes[key].deactivating && amount <= c.stakes[key].lamports && WithinCap(c, now, amount, cap)
                  && |c.stakeSystem.list| < c.stakeSystem.capacity && c.emergencyCooling + amount < U64_LIMIT)
            && (r.Ok? ==>
                  && record.lamports <= validator.activeBalance <= c.validatorSystem.totalActive
                  && r.value == PartFlagged(c, now, stakeIndex, index, key, amount, splitKey, rent))
  {
    hide Books, SplitStake, StartDeactivation, OnStakeMoved, WithinCap, Floors;
    var record, validator := c.stakeSystem.list[stakeIndex], c.validatorSystem.list[index];
    SplitStopped(c.stakes, key, amount, splitKey, rent);
    MoveIsCapped(c, amount, now, cap);
    if !c.stakes[key].deactivating {
      MatchIsCovered(c, stakeIndex, index, key);
      var rest, split := record.(lamports := record.lamports - amount), StakeRecord(splitKey, amount, now.epoch, 1);
      assert (c.stakeSystem.list + [split])[stakeIndex := rest] == c.stakeSystem.list[stakeIndex := rest] + [split];
    }
  }

  /** Nothing within a minimum stake of the target; otherwise what is desired, or the excess if that is less,
      and the whole account if less than a minimum stake would stay in it. */
  lemma PartialUnstakeExactly(c: Chain, now: Clock, stakeIndex: nat, index: nat, desired: nat, key: Key, splitKey: Key,
                              rent: nat, target: nat)
    requires Inv(c) && Vacant(c, splitKey) && Matches(c, stakeIndex, index, key)
    requires c.stakeSystem.list[stakeIndex].emergency == 0 && c.stakeSystem.minStake <= desired
    requires 0 <= c.validatorSystem.totalActive + Delta(c) < U64_LIMIT && target + c.stakeSystem.minStake < U64_LIMIT
    requires HasTarget(c.validatorSystem, c.validatorSystem.list[index], c.validatorSystem.totalActive + Delta(c),
                       target)
    ensures var record, validator := c.stakeSystem.list[stakeIndex], c.validatorSystem.list[index];
            var excess := validator.activeBalance - target;
            var amount := if desired < excess then desired else excess;
            var r := Cranks.PartialUnstake(c, now, stakeIndex, index, desired, key, splitKey, rent);
            if excess <= c.stakeSystem.minStake then r == Ok(c)
            else if record.lamports < amount + c.stakeSystem.minStake then
              r == Cranks.PartialWhole(c, now, stakeIndex, record, index, validator)
            else r == Cranks.PartialPart(c, now, stakeIndex, record, index, validator, amount, splitKey, rent)
  {
    hide Books, TicketTotals, HasTarget, StakeTarget, Cranks.PartialWhole, Cranks.PartialPart;
    ScoreListed(c, index);
    TargetIs(c.validatorSystem, c.validatorSystem.list[index], c.validatorSystem.totalActive + Delta(c), target);
  }

  lemma PartialUnstakeNeeds(c: Chain, now: Clock, stakeIndex: nat, index: nat, desired: nat, key: Key, splitKey: Key,
                            rent: nat)
    requires Cranks.PartialUnstake(c, now, stakeIndex, index, desired, key, splitKey, rent).Ok?
    ensures Vacant(c, splitKey) && Matches(c, stakeIndex, index, key) && c.stakeSystem.minStake <= desired
    ensures c.stakeSystem.list[stakeIndex].emergency == 0
    ensures 0 <= c.validatorSystem.totalActive + Delta(c) < U64_LIMIT
  {
    hide Cranks.PartialWhole, Cranks.PartialPart;
  }

  // ---------- redelegate ----------

  /** All lamports of an account's stake move to a new account of another validator; what is left of the old
      one is deactivating, and its record holds nothing. */
  function WholeMoved(c: Chain, now: Clock, stakeIndex: nat, i: nat, j: nat, key: Key, newKey: Key, rent: nat): Chain
    requires Matches(c, stakeIndex, i, key) && j < |c.validatorSystem.list|
    requires c.stakeSystem.list[stakeIndex].lamports <= c.validatorSystem.list[i].activeBalance
    requires c.stakes[key].stake <= c.stakes[key].lamports
  {
    var record, amount, account := c.stakeSystem.list[stakeIndex], c.stakes[key].stake, c.stakes[key];
    var source, dest := c.validatorSystem.list[i], c.validatorSystem.list[j];
    Counted(c, now, amount).(
      stakes := c.stakes[key := Stopped(account).(lamports := account.lamports - amount)]
                        [newKey := StakeAccount(dest.vote, false, amount, rent + amount, rent)],
      stakeSystem := c.stakeSystem.(
        list := c.stakeSystem.list[stakeIndex := record.(emergency := 0, lamports := 0)]
                + [StakeRecord(newKey, amount, now.epoch, 0)]),
      validatorSystem := c.validatorSystem.(
        list := c.validatorSystem.list[i := source.(activeBalance := source.activeBalance - amount)]
                                      [j := dest.(activeBalance := dest.activeBalance + amount)]))
  }

  lemma WholeMovedIs(c: Chain, now: Clock, stakeIndex: nat, i: nat, j: nat, key: Key, newKey: Key, rent: nat, cap: nat)
    requires Books(c) && Matches(c, stakeIndex, i, key) && j < |c.validatorSystem.list| && i != j
    requires newKey !in c.stakes && Floors(cap, InPool(c), c.config.maxMoved, 10_000)
    ensures var record := c.stakeSystem.list[stakeIndex];
            var source, dest := c.validatorSystem.list[i], c.validatorSystem.list[j];
            var r := Cranks.RedelegateWhole(c, now, stakeIndex, record, i, source, j, dest, newKey, rent);
            && (r.Ok? <==>
                  !c.stakes[key].deactivating && c.stakes[key].stake <= c.stakes[key].lamports
                  && WithinCap(c, now, record.lamports, cap) && |c.stakeSystem.list| < c.stakeSystem.capacity
                  && dest.activeBalance + record.lamports < U64_LIMIT)
            && (r.Ok? ==>
                  && record.lamports <= source.activeBalance
                  && r.value == WholeMoved(c, now, stakeIndex, i, j, key, newKey, rent))
  {
    hide Books, OnStakeMoved, WithinCap, Floors;
    var record := c.stakeSystem.list[stakeIndex];
    MoveIsCapped(c, record.lamports, now, cap);
    if !c.stakes[key].deactivating {
      MatchIsCovered(c, stakeIndex, i, key);
      var rest, moved := record.(emergency := 0, lamports := 0), StakeRecord(newKey, record.lamports, now.epoch, 0);
      assert (c.stakeSystem.list + [moved])[stakeIndex := rest] == c.stakeSystem.list[stakeIndex := rest] + [moved];
    }
  }

  /** Part of an account's stake is split off and moves; the split account stays behind, deactivating, with
      its rent and a record that holds nothing. */
  function PartMoved(c: Chain, now: Clock, stakeIndex: nat, i: nat, j: nat, key: Key, amount: nat, splitKey: Key,
                     newKey: Key, rent: nat): Chain
    requires Matches(c, stakeIndex, i, key) && j < |c.validatorSystem.list|
    requires amount <= c.stakes[key].stake && amount <= c.stakes[key].lamports
    requires c.stakeSystem.list[stakeIndex].lamports <= c.validatorSystem.list[i].activeBalance
  {
    var record, account := c.stakeSystem.list[stakeIndex], c.stakes[key];
    var source, dest := c.validatorSystem.list[i], c.validatorSystem.list[j];
    Counted(c, now, amount).(
      stakes := c.stakes[key := Kept(account, amount)]
                        [splitKey := StakeAccount(account.voter, true, amount, rent, rent)]
                        [newKey := StakeAccount(dest.vote, false, amount, rent + amount, rent)],
      stakeSystem := c.stakeSystem.(
        list := c.stakeSystem.list[stakeIndex := record.(lamports := record.lamports - amount)]
                + [StakeRecord(splitKey, 0, now.epoch, 0)] + [StakeRecord(newKey, amount, now.epoch, 0)]),
      validatorSystem := c.validatorSystem.(
        list := c.validatorSystem.list[i := source.(activeBalance := source.activeBalance - amount)]
                                      [j := dest.(activeBalance := dest.activeBalance + amount)]))
  }

  lemma SplitMoved(stakes: map<Key, StakeAccount>, key: Key, amount: nat, splitKey: Key, vote: Key, newKey: Key,
                   rent: nat)
    requires key in stakes && splitKey !in stakes && newKey !in stakes && splitKey != newKey
    requires amount <= stakes[key].stake
    ensures var split := SplitStake(stakes, key, amount, splitKey, rent);
            && (split.Ok? <==> amount <= stakes[key].lamports)
            && (split.Ok? ==>
                  && (RedelegateStake(split.value, splitKey, vote, newKey, rent).Ok? <==> !stakes[key].deactivating)
                  && (!stakes[key].deactivating ==>
                        RedelegateStake(split.value, splitKey, vote, newKey, rent)
                        == Ok(stakes[key := Kept(stakes[key], amount)]
                                    [splitKey := StakeAccount(stakes[key].voter, true, amount, rent, rent)]
                                    [newKey := StakeAccount(vote, false, amount, rent + amount, rent)])))
  {
    if amount <= stakes[key].lamports && !stakes[key].deactivating {
      var split := SplitStake(stakes, key, amount, splitKey, rent).value;
      assert split[splitKey := Stopped(split[splitKey]).(lamports := split[splitKey].lamports - amount)]
          == stakes[key := Kept(stakes[key], amount)]
                   [splitKey := StakeAccount(stakes[key].voter, true, amount, rent, rent)];
    }
  }

  lemma PartMovedIs(c: Chain, now: Clock, stakeIndex: nat, i: nat, j: nat, key: Key, amount: nat, splitKey: Key,
                    newKey: Key, rent: nat, cap: nat)
    requires Books(c) && Matches(c, stakeIndex, i, key) && j < |c.validatorSystem.list| && i != j
    requires splitKey !in c.stakes && newKey !in c.stakes && splitKey != newKey
    requires amount <= c.stakeSystem.list[stakeIndex].lamports && Floors(cap, InPool(c), c.config.maxMoved, 10_000)
    ensures var record := c.stakeSystem.list[stakeIndex];
            var source, dest := c.validatorSystem.list[i], c.validatorSystem.list[j];
            var r := Cranks.RedelegatePart(c, now, stakeIndex, record, i, source, j, dest, amount, splitKey, newKey,
                                           rent);
            && (r.Ok? <==>
                  !c.stakes[key].deactivating && amount <= c.stakes[key].lamports
                  && WithinCap(c, now, amount, cap) && |c.stakeSystem.list| + 1 < c.stakeSystem.capacity
                  && dest.activeBalance + amount < U64_LIMIT)
            && (r.Ok? ==>
                  && record.lamports <= source.activeBalance
                  && r.value == PartMoved(c, now, stakeIndex, i, j, key, amount, splitKey, newKey, rent))
  {
    hide Books, SplitStake, RedelegateStake, OnStakeMoved, WithinCap, Floors;
    var list, record := c.stakeSystem.list, c.stakeSystem.list[stakeIndex];
    SplitMoved(c.stakes, key, amount, splitKey, c.validatorSystem.list[j].vote, newKey, rent);
    MoveIsCapped(c, amount, now, cap);
    if !c.stakes[key].deactivating {
      MatchIsCovered(c, stakeIndex, i, key);
      var rest := record.(lamports := record.lamports - amount);
      var empty, moved := StakeRecord(splitKey, 0, now.epoch, 0), StakeRecord(newKey, amount, now.epoch, 0);
      assert (list + [empty] + [moved])[stakeIndex := rest] == list[stakeIndex := rest] + [empty] + [moved];
    }
  }

  /** Nothing unless one validator is a minimum stake over its target and the other that far under its own;
      otherwise the smaller of the two gaps, or the whole account if less than a minimum stake would stay. */
  lemma RedelegateExactly(c: Chain, now: Clock, stakeIndex: nat, i: nat, j: nat, key: Key, splitKey: Key, newKey: Key,
                          rent: nat, from: nat, to: nat)
    requires Inv(c) && Vacant(c, splitKey) && Vacant(c, newKey) && splitKey != newKey
    requires Matches(c, stakeIndex, i, key) && j < |c.validatorSystem.list| && i != j
    requires c.stakeSystem.list[stakeIndex].emergency == 0
    requires 0 <= c.validatorSystem.totalActive + Delta(c) < U64_LIMIT && from + c.stakeSystem.minStake < U64_LIMIT
    requires c.validatorSystem.list[j].activeBalance + c.stakeSystem.minStake < U64_LIMIT
    requires HasTarget(c.validatorSystem, c.validatorSystem.list[i], c.validatorSystem.totalActive + Delta(c), from)
    requires HasTarget(c.validatorSystem, c.validatorSystem.list[j], c.validatorSystem.totalActive + Delta(c), to)
    ensures var record, source, dest := c.stakeSystem.list[stakeIndex], c.validatorSystem.list[i],
              c.validatorSystem.list[j];
            var over, under := source.activeBalance - from, to - dest.activeBalance;
            var amount, minStake := if over < under then over else under, c.stakeSystem.minStake;
            var r := Cranks.Redelegate(c, now, stakeIndex, i, j, key, dest.vote, splitKey, newKey, rent);
            if amount < minStake then r == Ok(c)
            else if record.lamports < amount + minStake then
              r == Cranks.RedelegateWhole(c, now, stakeIndex, record, i, source, j, dest, newKey, rent)
            else r == Cranks.RedelegatePart(c, now, stakeIndex, record, i, source, j, dest, amount, splitKey, newKey,
                                            rent)
  {
    hide Books, TicketTotals, HasTarget, StakeTarget, Cranks.RedelegateWhole, Cranks.RedelegatePart;
    ScoreListed(c, i);
    ScoreListed(c, j);
    TargetIs(c.validatorSystem, c.validatorSystem.list[i], c.validatorSystem.totalActive + Delta(c), from);
    TargetIs(c.validatorSystem, c.validatorSystem.list[j], c.validatorSystem.totalActive + Delta(c), to);
  }

  lemma RedelegateNeeds(c: Chain, now: Clock, stakeIndex: nat, i: nat, j: nat, key: Key, destVote: Key, splitKey: Key,
                        newKey: Key, rent: nat)
    requires Cranks.Redelegate(c, now, stakeIndex, i, j, key, destVote, splitKey, newKey, rent).Ok?
    ensures Vacant(c, splitKey) && Vacant(c, newKey) && splitKey != newKey
    ensures Matches(c, stakeIndex, i, key) && i != j && c.stakeSystem.list[stakeIndex].emergency == 0
    ensures 0 <= c.validatorSystem.totalActive + Delta(c) < U64_LIMIT
    ensures var r := Cranks.Redelegate(c, now, stakeIndex, i, j, key, destVote, splitKey, newKey, rent);
            r != Ok(c) ==> j < |c.validatorSystem.list| && c.validatorSystem.list[j].vote == destVote
  {
    hide Cranks.RedelegateWhole, Cranks.RedelegatePart;
  }

  // ---------- merge_stakes ----------

  /** The record is for the account, which is active stake of the validator, and up to date. */
  predicate Mergeable(c: Chain, stakeIndex: nat, index: nat, key: Key) {
    Matches(c, stakeIndex, index, key) && !c.stakes[key].deactivating
  }

  /** The destination takes the stake of the source and the rent that became stake; the rest of the source's
      rent goes; and so do the source and its record. */
  function Merged(c: Chain, destIndex: nat, sourceIndex: nat, index: nat, destKey: Key, sourceKey: Key,
                  extra: nat): Chain
    requires Mergeable(c, destIndex, index, destKey) && Mergeable(c, sourceIndex, index, sourceKey)
    requires destKey != sourceKey
  {
    var dest, source := c.stakes[destKey], c.stakes[sourceKey];
    var validator, grown := c.validatorSystem.list[index], dest.stake + source.stake + extra;
    c.(stakes := c.stakes[destKey := dest.(stake := grown, lamports := dest.lamports + source.stake + extra)]
                 - {sourceKey},
       stakeSystem := c.stakeSystem.(
         list := SwapRemove(c.stakeSystem.list[destIndex := c.stakeSystem.list[destIndex].(lamports := grown)],
                            sourceIndex)),
       validatorSystem := c.validatorSystem.(
         list := c.validatorSystem.list[
           index := validator.(activeBalance := validator.activeBalance + extra)],
         totalActive := c.validatorSystem.totalActive + extra))
  }

  lemma MergeStakesExactly(c: Chain, destIndex: nat, sourceIndex: nat, index: nat, destKey: Key, sourceKey: Key,
                           extra: nat)
    ensures var r := Cranks.MergeStakes(c, destIndex, sourceIndex, index, destKey, sourceKey, extra);
            && (r.Ok? <==>
                  && !c.paused && destKey != sourceKey
                  && Mergeable(c, destIndex, index, destKey) && Mergeable(c, sourceIndex, index, sourceKey)
                  && c.stakes[sourceKey].lamports == c.stakes[sourceKey].stake + c.stakes[sourceKey].rent
                  && extra <= c.stakes[sourceKey].rent
                  && c.validatorSystem.list[index].activeBalance + extra < U64_LIMIT
                  && c.validatorSystem.totalActive + extra < U64_LIMIT)
            && (r.Ok? ==> r.value == Merged(c, destIndex, sourceIndex, index, destKey, sourceKey, extra))
  {
    hide SwapRemove;
    var r := Cranks.MergeStakes(c, destIndex, sourceIndex, index, destKey, sourceKey, extra);
    if r.Ok? {
      assert r.value.stakes == Merged(c, destIndex, sourceIndex, index, destKey, sourceKey, extra).stakes;
    }
  }
}
