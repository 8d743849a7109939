/** The limit on stake moved between validators: the program's counter is, over every run on a clock
    that does not go back, exactly what its last three movers moved in the epoch it names, and no move
    takes it over the configured share of the lamports under control. */
module MoveCap {
  import opened Results
  import opened Calc
  import opened Records
  import opened State
  import opened Admin
  import opened Ledger
  import opened Machine
  import Cranks
  import Users
  import opened CrankBooks
  import opened UpdateBooks
  import opened Invariants

  predicate IsMover(a: Action) {
    a.EmergencyUnstake? || a.PartialUnstake? || a.Redelegate?
  }

  function BalanceAt(c: Chain, index: nat): nat {
    if index < |c.validatorSystem.list| then c.validatorSystem.list[index].activeBalance else 0
  }

  /** What an instruction that led to c' moved away from a validator: into emergency cooling down, or to
      another validator. */
  function MovedTo(c: Chain, a: Action, c': Chain): nat {
    if a.EmergencyUnstake? || a.PartialUnstake? then SatSub(c'.emergencyCooling, c.emergencyCooling)
    else if a.Redelegate? then SatSub(BalanceAt(c, a.sourceIndex), BalanceAt(c', a.sourceIndex))
    else 0
  }

  function MovedBy(c: Chain, e: Event): nat {
    MovedTo(c, e.action, Exec(c, e))
  }

  /** The counter after moving `amount` in the epoch of `now`, and its cap. */
  ghost predicate Counts(c: Chain, now: Clock, amount: nat, c': Chain) {
    && c'.lastMoveEpoch == now.epoch
    && c'.stakeMoved == amount + (if now.epoch == c.lastMoveEpoch then c.stakeMoved else 0)
    && c'.stakeMoved <= FeeApply(c.config.maxMoved, Control(c))
  }

  lemma EmergencyUnstakeCounts(c: Chain, now: Clock, stakeIndex: nat, index: nat, key: Key)
    requires Cranks.EmergencyUnstake(c, now, stakeIndex, index, key).Ok?
    ensures var c' := Cranks.EmergencyUnstake(c, now, stakeIndex, index, key).value;
            c.emergencyCooling <= c'.emergencyCooling && Counts(c, now, c'.emergencyCooling - c.emergencyCooling, c')
  {
  }

  lemma PartialWholeCounts(c: Chain, now: Clock, stakeIndex: nat, stake: StakeRecord, index: nat,
                           validator: ValidatorRecord)
    requires stakeIndex < |c.stakeSystem.list| && index < |c.validatorSystem.list|
    requires Cranks.PartialWhole(c, now, stakeIndex, stake, index, validator).Ok?
    ensures var c' := Cranks.PartialWhole(c, now, stakeIndex, stake, index, validator).value;
            c.emergencyCooling <= c'.emergencyCooling && Counts(c, now, c'.emergencyCooling - c.emergencyCooling, c')
  {
  }

  lemma PartialPartCounts(c: Chain, now: Clock, stakeIndex: nat, stake: StakeRecord, index: nat,
                          validator: ValidatorRecord,
                          amount: nat, splitKey: Key, rent: nat)
    requires stakeIndex < |c.stakeSystem.list| && index < |c.validatorSystem.list|
    requires Cranks.PartialPart(c, now, stakeIndex, stake, index, validator, amount, splitKey, rent).Ok?
    ensures var c' := Cranks.PartialPart(c, now, stakeIndex, stake, index, validator, amount, splitKey, rent).value;
            c.emergencyCooling <= c'.emergencyCooling && Counts(c, now, c'.emergencyCooling - c.emergencyCooling, c')
  {
  }

  lemma PartialUnstakeCounts(c: Chain, now: Clock, stakeIndex: nat, index: nat, desired: nat, key: Key, splitKey: Key,
                             rent: nat)
    requires Cranks.PartialUnstake(c, now, stakeIndex, index, desired, key, splitKey, rent).Ok?
    ensures var c' := Cranks.PartialUnstake(c, now, stakeIndex, index, desired, key, splitKey, rent).value;
            c' == c || (c.emergencyCooling <= c'.emergencyCooling
                        && Counts(c, now, c'.emergencyCooling - c.emergencyCooling, c'))
  {
    var stake, validator := c.stakeSystem.list[stakeIndex], c.validatorSystem.list[index];
    var plan := Cranks.PartialPlan(c, stake, validator, desired);
    if plan.value.Whole? {
      PartialWholeCounts(c, now, stakeIndex, stake, index, validator);
    } else if plan.value.Part? {
      PartialPartCounts(c, now, stakeIndex, stake, index, validator, plan.value.amount, splitKey, rent);
    }
  }

  lemma RedelegateWholeCounts(c: Chain, now: Clock, stakeIndex: nat, stake: StakeRecord, i: nat,
                              source: ValidatorRecord,
                              j: nat, dest: ValidatorRecord, newKey: Key, rent: nat)
    requires stakeIndex < |c.stakeSystem.list| && i < |c.validatorSystem.list| && j < |c.validatorSystem.list| && i != j
    requires c.validatorSystem.list[i] == source
    requires Cranks.RedelegateWhole(c, now, stakeIndex, stake, i, source, j, dest, newKey, rent).Ok?
    ensures var c' := Cranks.RedelegateWhole(c, now, stakeIndex, stake, i, source, j, dest, newKey, rent).value;
            BalanceAt(c', i) <= BalanceAt(c, i) && Counts(c, now, BalanceAt(c, i) - BalanceAt(c', i), c')
  {
  }

  lemma RedelegatePartCounts(c: Chain, now: Clock, stakeIndex: nat, stake: StakeRecord, i: nat, source: ValidatorRecord,
                             j: nat, dest: ValidatorRecord, amount: nat, splitKey: Key, newKey: Key, rent: nat)
    requires stakeIndex < |c.stakeSystem.list| && i < |c.validatorSystem.list| && j < |c.validatorSystem.list| && i != j
    requires c.validatorSystem.list[i] == source
    requires Cranks.RedelegatePart(c, now, stakeIndex, stake, i, source, j, dest, amount, splitKey, newKey, rent).Ok?
    ensures var c' := Cranks.RedelegatePart(c, now, stakeIndex, stake, i, source, j, dest, amount, splitKey, newKey,
                                            rent).value;
            BalanceAt(c', i) <= BalanceAt(c, i) && Counts(c, now, BalanceAt(c, i) - BalanceAt(c', i), c')
  {
  }

  lemma RedelegateCounts(c: Chain, now: Clock, stakeIndex: nat, i: nat, j: nat, key: Key, destVote: Key, splitKey: Key,
                         newKey: Key, rent: nat)
    requires Cranks.Redelegate(c, now, stakeIndex, i, j, key, destVote, splitKey, newKey, rent).Ok?
    ensures var c' := Cranks.Redelegate(c, now, stakeIndex, i, j, key, destVote, splitKey, newKey, rent).value;
            c' == c || (BalanceAt(c', i) <= BalanceAt(c, i) && Counts(c, now, BalanceAt(c, i) - BalanceAt(c', i), c'))
  {
    var stake, source, dest := c.stakeSystem.list[stakeIndex], c.validatorSystem.list[i],
      GetValidator(c.validatorSystem, j, destVote);
    var plan := Cranks.RedelegatePlan(c, stake, source, dest);
    if plan.value.Whole? {
      RedelegateWholeCounts(c, now, stakeIndex, stake, i, source, j, dest.value, newKey, rent);
    } else if plan.value.Part? {
      RedelegatePartCounts(c, now, stakeIndex, stake, i, source, j, dest.value, plan.value.amount, splitKey, newKey,
                           rent);
    }
  }

  lemma RebalanceCounts(c: Chain, now: Clock, a: Action)
    requires IsMover(a) && RebalanceStep(c, now, a).Ok?
    ensures var c' := RebalanceStep(c, now, a).value;
            c' == c || Counts(c, now, MovedTo(c, a, c'), c')
  {
    match a
    case EmergencyUnstake(stakeIndex, index, key) => EmergencyUnstakeCounts(c, now, stakeIndex, index, key);
    case PartialUnstake(stakeIndex, index, desired, key, splitKey, rent) =>
      PartialUnstakeCounts(c, now, stakeIndex, index, desired, key, splitKey, rent);
    case Redelegate(stakeIndex, i, j, key, destVote, splitKey, newKey, rent) =>
      RedelegateCounts(c, now, stakeIndex, i, j, key, destVote, splitKey, newKey, rent);
  }

  /** A mover counts exactly what it moves and stays within the cap, on the total it leaves unchanged. */
  lemma MoverCounts(c: Chain, e: Event)
    requires Inv(c) && IsMover(e.action)
    ensures Exec(c, e) == c || Counts(c, e.now, MovedBy(c, e), Exec(c, e))
    ensures Exec(c, e) != c ==> Exec(c, e).stakeMoved <= FeeApply(c.config.maxMoved, Control(Exec(c, e)))
  {
    hide Inv, OutsideStep, UserStep, PoolStep, RebalanceStep, AdminStep, UpkeepStep;
    if Step(c, e).Ok? {
      RebalanceConserves(c, e.now, e.action);
      RebalanceCounts(c, e.now, e.action);
    }
  }

  /** While the cap is configured at no more than 100%, no move takes the counter over what is under control. */
  lemma MovedWithinControl(c: Chain, e: Event)
    requires Inv(c) && IsMover(e.action) && Exec(c, e) != c && c.config.maxMoved <= MAX_BASIS_POINTS
    ensures Exec(c, e).stakeMoved <= Control(Exec(c, e))
  {
    MoverCounts(c, e);
    PortionAtMost(Control(Exec(c, e)), c.config.maxMoved, MAX_BASIS_POINTS);
  }

  // ---------- other steps ----------

  lemma UserStepKeepsMoves(c: Chain, now: Clock, a: Action)
    requires IsUser(a)
    ensures KeepsMoves(c, UserStep(c, now, a))
  {
    hide Users.WithdrawStakeAccount;
    if a.WithdrawStakeAccount? && UserStep(c, now, a).Ok? {
      WithdrawIsHandOut(c, a.stakeIndex, a.index, a.msol, a.funds, a.key, a.splitKey, a.rent, a.ready);
    }
  }

  lemma PoolStepKeepsMoves(c: Chain, a: Action)
    requires IsPool(a)
    ensures KeepsMoves(c, PoolStep(c, a))
  {
  }

  lemma AdminStepKeepsMoves(c: Chain, a: Action)
    requires IsAdmin(a)
    ensures KeepsMoves(c, AdminStep(c, a))
  {
  }

  lemma OutsideStepKeepsMoves(c: Chain, a: Action)
    requires Outside(a)
    ensures KeepsMoves(c, OutsideStep(c, a))
  {
  }

  lemma RebalanceStepKeepsMoves(c: Chain, now: Clock, a: Action)
    requires Inv(c) && IsRebalance(a) && !IsMover(a)
    ensures KeepsMoves(c, RebalanceStep(c, now, a))
  {
    match a
    case StakeReserve(index, vote, newKey, rent) => StakeReserveIsSound(c, now, index, vote, newKey, rent);
    case DeactivateStake(stakeIndex, index, key, splitKey, rent) =>
      DeactivateStakeIsSound(c, now, stakeIndex, index, key, splitKey, rent);
  }

  lemma UpkeepStepKeepsMoves(c: Chain, now: Clock, a: Action)
    requires Inv(c) && (IsUpdate(a) || a.MergeStakes?)
    ensures KeepsMoves(c, UpkeepStep(c, now, a))
  {
    match a
    case UpdateActive(stakeIndex, index, key, ready) => UpdateActiveIsSound(c, now, stakeIndex, index, key, ready);
    case UpdateDeactivated(stakeIndex, key, ready) => UpdateDeactivatedIsSound(c, stakeIndex, key, ready);
    case MergeStakes(destIndex, sourceIndex, index, destKey, sourceKey, extra) =>
      MergeStakesIsSound(c, destIndex, sourceIndex, index, destKey, sourceKey, extra);
  }

  lemma OtherStepKeepsMoves(c: Chain, e: Event)
    requires Inv(c) && !IsMover(e.action)
    ensures KeepsMoves(c, Step(c, e))
  {
    var a := e.action;
    if Outside(a) {
      OutsideStepKeepsMoves(c, a);
    } else if IsUser(a) {
      UserStepKeepsMoves(c, e.now, a);
    } else if IsPool(a) {
      PoolStepKeepsMoves(c, a);
    } else if IsRebalance(a) {
      RebalanceStepKeepsMoves(c, e.now, a);
    } else if IsAdmin(a) {
      AdminStepKeepsMoves(c, a);
    } else {
      UpkeepStepKeepsMoves(c, e.now, a);
    }
  }

  // ---------- runs ----------

  /** What a run moved in one epoch. */
  function MovedIn(c: Chain, events: seq<Event>, epoch: nat): nat {
    if events == [] then 0
    else
      var most, last := events[..|events| - 1], events[|events| - 1];
      MovedIn(c, most, epoch) + if last.now.epoch == epoch then MovedBy(Run(c, most), last) else 0
  }

  /** The clock never goes back, nor before `start`. */
  ghost predicate Forward(events: seq<Event>, start: nat) {
    && (forall i :: 0 <= i < |events| ==> start <= events[i].now.epoch)
    && (forall i, j :: 0 <= i < j < |events| ==> events[i].now.epoch <= events[j].now.epoch)
  }

  ghost predicate CounterOf(c: Chain, events: seq<Event>) {
    var c' := Run(c, events);
    && c.lastMoveEpoch <= c'.lastMoveEpoch
    && (c'.lastMoveEpoch == c.lastMoveEpoch || (events != [] && c'.lastMoveEpoch <= events[|events| - 1].now.epoch))
    && c'.stakeMoved == MovedIn(c, events, c'.lastMoveEpoch)
                        + (if c'.lastMoveEpoch == c.lastMoveEpoch then c.stakeMoved else 0)
    && forall epoch: nat :: epoch > c'.lastMoveEpoch ==> MovedIn(c, events, epoch) == 0
  }

  lemma ForwardPrefix(most: seq<Event>, last: Event, start: nat)
    requires Forward(most + [last], start)
    ensures Forward(most, start)
  {
    forall i | 0 <= i < |most|
      ensures most[i] == (most + [last])[i]
    {
    }
  }

  /** The counter of stake moved is what the run moved in the epoch it stands for, on top of what it
      started with if that is still the same epoch. */
  lemma {:induction false} CounterIsExact(c: Chain, events: seq<Event>)
    requires Inv(c) && Forward(events, c.lastMoveEpoch)
    ensures CounterOf(c, events)
  {
    if events != [] {
      var most, last := events[..|events| - 1], events[|events| - 1];
      assert most + [last] == events;
      ForwardPrefix(most, last, c.lastMoveEpoch);
      CounterIsExact(c, most);
      RunKeepsInv(c, most);
      CounterStep(c, most, last);
    }
  }

  lemma OthersMoveNothing(c: Chain, e: Event)
    requires !IsMover(e.action)
    ensures MovedBy(c, e) == 0
  {
  }

  lemma CounterStep(c: Chain, most: seq<Event>, last: Event)
    requires Inv(Run(c, most)) && CounterOf(c, most)
    requires Forward(most + [last], c.lastMoveEpoch)
    ensures CounterOf(c, most + [last])
  {
    var events, before := most + [last], Run(c, most);
    assert events[..|events| - 1] == most && events[|events| - 1] == last;
    if most != [] {
      assert most[|most| - 1] == events[|most| - 1];
    }
    forall epoch: nat
      ensures MovedIn(c, events, epoch)
           == MovedIn(c, most, epoch) + if last.now.epoch == epoch then MovedBy(before, last) else 0
    {
    }
    if IsMover(last.action) {
      MoverCounts(before, last);
    } else {
      OtherStepKeepsMoves(before, last);
      OthersMoveNothing(before, last);
    }
  }

  /** From creation: stake_moved is always the total moved in last_stake_move_epoch. */
  lemma StakeMovedFromCreation(p: InitializeData, events: seq<Event>)
    requires Initialize(p).Ok? && Forward(events, 0)
    ensures var c := Run(Initialize(p).value, events);
            c.stakeMoved == MovedIn(Initialize(p).value, events, c.lastMoveEpoch)
  {
    InitialState(p);
    CounterIsExact(Initialize(p).value, events);
  }
}
