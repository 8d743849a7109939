/** Redelegation converges: no call changes any validator's target, and every effective one brings the
    validators strictly closer to their targets, so only finitely many can follow one another. */
module Redelegation {
  import opened Results
  import opened Calc
  import opened Sums
  import opened Records
  import opened State
  import opened Ledger
  import opened Machine
  import opened Invariants
  import opened Scheduler
  import Cranks

  function Abs(x: int): nat {
    if x < 0 then -x else x
  }

  /** How far a validator is from its target. */
  function Off(totalScore: nat, total: nat): ValidatorRecord -> nat {
    (validator: ValidatorRecord) => Abs(validator.activeBalance - TargetOf(totalScore, total)(validator))
  }

  /** How far all validators together are from their targets, if there are any. */
  function Distance(c: Chain): nat {
    if MoveTarget(c).Ok? then SumBy(c.validatorSystem.list, Off(c.validatorSystem.totalScore, MoveTarget(c).value))
      else 0
  }

  /** The amount redelegated: what is planned, or the whole record if less than a minimum stake would stay. */
  function Effective(source: nat, sourceTarget: nat, dest: nat, destTarget: nat, lamports: nat, minStake: nat): int {
    var amount := Min(destTarget - dest, Min(source - sourceTarget, lamports));
    if lamports - amount < minStake then lamports else amount
  }

  /** Moving it brings the two validators closer together, even when the whole record overshoots. */
  lemma MoveCloser(source: nat, sourceTarget: nat, dest: nat, destTarget: nat, lamports: nat, minStake: nat)
    requires 0 < minStake && sourceTarget + minStake <= source && dest + minStake <= destTarget
    ensures var moved := Effective(source, sourceTarget, dest, destTarget, lamports, minStake);
            var before := Abs(source - sourceTarget) + Abs(dest - destTarget);
            var after := Abs(source - moved - sourceTarget) + Abs(dest + moved - destTarget);
            0 <= moved <= lamports && after <= before && (lamports > 0 ==> after < before)
  {
  }

  /** Taking `moved` from one validator's balance and adding it to another's. */
  function MovedList(list: seq<ValidatorRecord>, i: nat, j: nat, moved: nat): seq<ValidatorRecord>
    requires i < |list| && j < |list| && i != j && moved <= list[i].activeBalance
  {
    list[i := list[i].(activeBalance := list[i].activeBalance - moved)]
        [j := list[j].(activeBalance := list[j].activeBalance + moved)]
  }

  lemma DistanceAfterMove(list: seq<ValidatorRecord>, i: nat, j: nat, moved: nat, off: ValidatorRecord -> nat)
    requires i < |list| && j < |list| && i != j && moved <= list[i].activeBalance
    ensures var list' := MovedList(list, i, j, moved);
            SumBy(list', off) + off(list[i]) + off(list[j]) == SumBy(list, off) + off(list'[i]) + off(list'[j])
  {
    var source := list[i].(activeBalance := list[i].activeBalance - moved);
    SumSet(list, off, i, source);
    SumSet(list[i := source], off, j, list[j].(activeBalance := list[j].activeBalance + moved));
  }

  /** What an effective redelegation does to the validators; everything the targets depend on stays. */
  ghost predicate MovesBetween(c: Chain, stakeIndex: nat, i: nat, j: nat, c': Chain)
    requires stakeIndex < |c.stakeSystem.list|
  {
    && i < |c.validatorSystem.list| && j < |c.validatorSystem.list| && i != j
    && MoveTarget(c).Ok? && MoveTarget(c') == MoveTarget(c)
    && var source, dest := c.validatorSystem.list[i], c.validatorSystem.list[j];
       var sourceTarget := StakeTarget(c.validatorSystem, source, MoveTarget(c).value);
       var destTarget := StakeTarget(c.validatorSystem, dest, MoveTarget(c).value);
       var minStake := c.stakeSystem.minStake;
       && sourceTarget.Ok? && destTarget.Ok?
       && sourceTarget.value + minStake <= source.activeBalance && dest.activeBalance + minStake <= destTarget.value
       && var moved := Effective(source.activeBalance, sourceTarget.value, dest.activeBalance, destTarget.value,
                                 c.stakeSystem.list[stakeIndex].lamports, minStake);
          && 0 <= moved <= source.activeBalance
          && c'.validatorSystem == c.validatorSystem.(list := MovedList(c.validatorSystem.list, i, j, moved))
  }

  /** What is planned is the effective amount, between two validators with gaps of a minimum stake. */
  lemma PlanIsEffective(c: Chain, stakeIndex: nat, i: nat, j: nat)
    requires stakeIndex < |c.stakeSystem.list| && i < |c.validatorSystem.list| && j < |c.validatorSystem.list|
    requires var plan := Cranks.RedelegatePlan(c, c.stakeSystem.list[stakeIndex], c.validatorSystem.list[i],
                                               Ok(c.validatorSystem.list[j]));
             plan.Ok? && !plan.value.Skip?
    ensures var source, dest := c.validatorSystem.list[i], c.validatorSystem.list[j];
            var plan := Cranks.RedelegatePlan(c, c.stakeSystem.list[stakeIndex], source, Ok(dest)).value;
            MoveTarget(c).Ok? &&
            var sourceTarget := StakeTarget(c.validatorSystem, source, MoveTarget(c).value);
            var destTarget := StakeTarget(c.validatorSystem, dest, MoveTarget(c).value);
            var minStake := c.stakeSystem.minStake;
            && sourceTarget.Ok? && destTarget.Ok?
            && sourceTarget.value + minStake <= source.activeBalance
            && dest.activeBalance + minStake <= destTarget.value
            && plan.amount == Effective(source.activeBalance, sourceTarget.value, dest.activeBalance, destTarget.value,
                                        c.stakeSystem.list[stakeIndex].lamports, minStake)
  {
    hide MoveTarget, StakeTarget;
  }

  lemma SameMoveTarget(c: Chain, c': Chain)
    requires c'.validatorSystem.totalActive == c.validatorSystem.totalActive && TotalCooling(c') == TotalCooling(c)
    requires c'.stakeSystem.delayedCooling == c.stakeSystem.delayedCooling && c'.config == c.config
    requires c'.reserve == c.reserve && c'.ticketBalance == c.ticketBalance
    ensures MoveTarget(c') == MoveTarget(c)
  {
  }

  lemma WholeMovesBetween(c: Chain, now: Clock, stakeIndex: nat, i: nat, j: nat, newKey: Key, rent: nat)
    requires stakeIndex < |c.stakeSystem.list| && i < |c.validatorSystem.list| && j < |c.validatorSystem.list| && i != j
    requires var stake, source, dest := c.stakeSystem.list[stakeIndex], c.validatorSystem.list[i],
             c.validatorSystem.list[j];
             && Cranks.RedelegatePlan(c, stake, source, Ok(dest)) == Ok(Cranks.Whole(stake.lamports))
             && Cranks.RedelegateWhole(c, now, stakeIndex, stake, i, source, j, dest, newKey, rent).Ok?
    ensures var stake, source, dest := c.stakeSystem.list[stakeIndex], c.validatorSystem.list[i],
            c.validatorSystem.list[j];
            MovesBetween(c, stakeIndex, i, j, Cranks.RedelegateWhole(c, now, stakeIndex, stake, i, source, j, dest,
                                                                     newKey, rent).value)
  {
    hide MoveTarget, StakeTarget, Effective, Cranks.RedelegatePlan, FeeApply;
    var stake, source, dest := c.stakeSystem.list[stakeIndex], c.validatorSystem.list[i], c.validatorSystem.list[j];
    PlanIsEffective(c, stakeIndex, i, j);
    SameMoveTarget(c, Cranks.RedelegateWhole(c, now, stakeIndex, stake, i, source, j, dest, newKey, rent).value);
  }

  lemma PartMovesBetween(c: Chain, now: Clock, stakeIndex: nat, i: nat, j: nat, amount: nat, splitKey: Key, newKey: Key,
                         rent: nat)
    requires stakeIndex < |c.stakeSystem.list| && i < |c.validatorSystem.list| && j < |c.validatorSystem.list| && i != j
    requires var stake, source, dest := c.stakeSystem.list[stakeIndex], c.validatorSystem.list[i],
             c.validatorSystem.list[j];
             && Cranks.RedelegatePlan(c, stake, source, Ok(dest)) == Ok(Cranks.Part(amount))
             && Cranks.RedelegatePart(c, now, stakeIndex, stake, i, source, j, dest, amount, splitKey, newKey, rent).Ok?
    ensures var stake, source, dest := c.stakeSystem.list[stakeIndex], c.validatorSystem.list[i],
            c.validatorSystem.list[j];
            MovesBetween(c, stakeIndex, i, j, Cranks.RedelegatePart(c, now, stakeIndex, stake, i, source, j, dest,
                                                                    amount, splitKey, newKey, rent).value)
  {
    hide MoveTarget, StakeTarget, Effective, Cranks.RedelegatePlan, FeeApply;
    var stake, source, dest := c.stakeSystem.list[stakeIndex], c.validatorSystem.list[i], c.validatorSystem.list[j];
    PlanIsEffective(c, stakeIndex, i, j);
    SameMoveTarget(c, Cranks.RedelegatePart(c, now, stakeIndex, stake, i, source, j, dest, amount, splitKey, newKey,
                                            rent).value);
  }

  lemma RedelegateMoves(c: Chain, now: Clock, stakeIndex: nat, i: nat, j: nat, key: Key, destVote: Key, splitKey: Key,
                        newKey: Key, rent: nat)
    requires Cranks.Redelegate(c, now, stakeIndex, i, j, key, destVote, splitKey, newKey, rent).Ok?
    ensures stakeIndex < |c.stakeSystem.list|
    ensures var c' := Cranks.Redelegate(c, now, stakeIndex, i, j, key, destVote, splitKey, newKey, rent).value;
            c' == c || MovesBetween(c, stakeIndex, i, j, c')
  {
    var stake, source, dest := c.stakeSystem.list[stakeIndex], c.validatorSystem.list[i],
      GetValidator(c.validatorSystem, j, destVote);
    var plan := Cranks.RedelegatePlan(c, stake, source, dest);
    if plan.value.Whole? {
      WholeMovesBetween(c, now, stakeIndex, i, j, newKey, rent);
    } else if plan.value.Part? {
      PartMovesBetween(c, now, stakeIndex, i, j, plan.value.amount, splitKey, newKey, rent);
    }
  }

  /** Every validator's target is the same before and after. */
  ghost predicate SameTargets(c: Chain, c': Chain)
    requires MoveTarget(c).Ok? && MoveTarget(c').Ok?
  {
    && |c'.validatorSystem.list| == |c.validatorSystem.list|
    && forall k :: 0 <= k < |c.validatorSystem.list| ==>
         StakeTarget(c'.validatorSystem, c'.validatorSystem.list[k], MoveTarget(c').value)
         == StakeTarget(c.validatorSystem, c.validatorSystem.list[k], MoveTarget(c).value)
  }

  lemma MoveKeepsTargets(c: Chain, stakeIndex: nat, i: nat, j: nat, c': Chain)
    requires stakeIndex < |c.stakeSystem.list| && MovesBetween(c, stakeIndex, i, j, c')
    ensures SameTargets(c, c')
  {
  }

  /** A move in a list brings the total distance down by what it brings the two members down. */
  lemma MoveLowersDistance(system: ValidatorSystem, i: nat, j: nat, total: nat, lamports: nat, minStake: nat)
    requires i < |system.list| && j < |system.list| && i != j && minStake > 0
    requires var target := TargetOf(system.totalScore, total);
             && target(system.list[i]) + minStake <= system.list[i].activeBalance
             && system.list[j].activeBalance + minStake <= target(system.list[j])
    ensures var target := TargetOf(system.totalScore, total);
            var off := Off(system.totalScore, total);
            var moved := Effective(system.list[i].activeBalance, target(system.list[i]),
                                   system.list[j].activeBalance, target(system.list[j]), lamports, minStake);
            0 <= moved &&
            (moved <= system.list[i].activeBalance ==>
               var after := SumBy(MovedList(system.list, i, j, moved), off);
               after <= SumBy(system.list, off) && (lamports > 0 ==> after < SumBy(system.list, off)))
  {
    var target := TargetOf(system.totalScore, total);
    var source, dest := system.list[i].activeBalance, system.list[j].activeBalance;
    MoveCloser(source, target(system.list[i]), dest, target(system.list[j]), lamports, minStake);
    var moved := Effective(source, target(system.list[i]), dest, target(system.list[j]), lamports, minStake);
    if moved <= source {
      DistanceAfterMove(system.list, i, j, moved, Off(system.totalScore, total));
    }
  }

  /** A move between a validator over and one under its target keeps all targets and never takes the
      validators further from them; when the record holds anything it takes them strictly closer. */
  lemma MoveConverges(c: Chain, stakeIndex: nat, i: nat, j: nat, c': Chain)
    requires ValidatorTotals(c.validatorSystem) && c.stakeSystem.minStake > 0
    requires stakeIndex < |c.stakeSystem.list| && MovesBetween(c, stakeIndex, i, j, c')
    ensures SameTargets(c, c') && Distance(c') <= Distance(c)
    ensures c.stakeSystem.list[stakeIndex].lamports > 0 ==> Distance(c') < Distance(c)
  {
    MoveKeepsTargets(c, stakeIndex, i, j, c');
    TargetExists(c.validatorSystem, i, MoveTarget(c).value);
    TargetExists(c.validatorSystem, j, MoveTarget(c).value);
    MoveLowersDistance(c.validatorSystem, i, j, MoveTarget(c).value, c.stakeSystem.list[stakeIndex].lamports,
                       c.stakeSystem.minStake);
  }

  // ---------- runs ----------

  ghost predicate OnlyRedelegate(events: seq<Event>) {
    forall i :: 0 <= i < |events| ==> events[i].action.Redelegate?
  }

  /** A redelegation that changes something, of a record that holds lamports. */
  predicate IsEffective(c: Chain, e: Event) {
    && e.action.Redelegate? && e.action.stakeIndex < |c.stakeSystem.list|
    && c.stakeSystem.list[e.action.stakeIndex].lamports > 0 && Exec(c, e) != c
  }

  function EffectiveMoves(c: Chain, events: seq<Event>): nat {
    if events == [] then 0
    else
      var most := events[..|events| - 1];
      EffectiveMoves(c, most) + if IsEffective(Run(c, most), events[|events| - 1]) then 1 else 0
  }

  /** Without a total target no redelegation changes anything. */
  lemma NoTargetNoMove(c: Chain, e: Event)
    requires e.action.Redelegate? && MoveTarget(c).Err?
    ensures Exec(c, e) == c
  {
    var a := e.action;
    assert Step(c, e) == Cranks.Redelegate(c, e.now, a.stakeIndex, a.sourceIndex, a.destIndex, a.key, a.destVote,
                                           a.splitKey, a.newKey, a.rent);
  }

  lemma RedelegateStep(c: Chain, e: Event)
    requires Inv(c) && e.action.Redelegate?
    ensures MoveTarget(Exec(c, e)) == MoveTarget(c)
    ensures Distance(Exec(c, e)) + (if IsEffective(c, e) then 1 else 0) <= Distance(c)
  {
    var a := e.action;
    if MoveTarget(c).Err? {
      NoTargetNoMove(c, e);
    } else if Exec(c, e) != c {
      RedelegateMoves(c, e.now, a.stakeIndex, a.sourceIndex, a.destIndex, a.key, a.destVote, a.splitKey, a.newKey,
                      a.rent);
      MoveConverges(c, a.stakeIndex, a.sourceIndex, a.destIndex, Exec(c, e));
    }
  }

  /** However many redelegations follow one another, at most as many move lamports as the validators were
      lamports off their targets at the start. Those of records without lamports move nothing. */
  lemma {:induction false} RedelegationStops(c: Chain, events: seq<Event>)
    requires Inv(c) && OnlyRedelegate(events)
    ensures MoveTarget(Run(c, events)) == MoveTarget(c)
    ensures EffectiveMoves(c, events) + Distance(Run(c, events)) <= Distance(c)
  {
    if events != [] {
      var most := events[..|events| - 1];
      RedelegationStops(c, most);
      RunKeepsInv(c, most);
      RedelegateStep(Run(c, most), events[|events| - 1]);
    }
  }
}
