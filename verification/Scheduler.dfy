/** The rebalancing cranks: stake targets add up to the total, so there is always a validator to stake
    to or unstake from; each crank keeps its limits; and cranks run after one another stop. */
module Scheduler {
  import opened Results
  import opened Calc
  import opened Sums
  import opened Records
  import opened State
  import opened Admin
  import opened Ledger
  import Cranks

  // ---------- targets ----------

  /** The stake target of a validator out of a total target, as a weight. */
  function TargetOf(totalScore: nat, total: nat): ValidatorRecord -> nat {
    (validator: ValidatorRecord) => if totalScore == 0 then 0 else total * validator.score / totalScore
  }

  /** Every listed validator has a target, and it is at most the total. */
  lemma TargetExists(system: ValidatorSystem, i: nat, total: nat)
    requires ValidatorTotals(system) && i < |system.list| && total < U64_LIMIT
    ensures StakeTarget(system, system.list[i], total) == Ok(TargetOf(system.totalScore, total)(system.list[i]))
    ensures TargetOf(system.totalScore, total)(system.list[i]) <= total
  {
    if system.totalScore > 0 {
      SumMember(system.list, Score(), i);
      var score, all := system.list[i].score, system.totalScore;
      MulMono(score, all, total);
      DivMod(total * score, all);
      CancelFactor(total * score / all, total, all);
    }
  }

  /** Targets fall short of the exact shares of some scores by less than one lamport for each of n. */
  predicate Floored(targets: nat, scores: nat, all: nat, total: nat, n: nat)
    requires all > 0
  {
    targets * all <= total * scores <= targets * all + n * (all - 1)
  }

  lemma FlooredNone(all: nat, total: nat)
    requires all > 0
    ensures Floored(0, 0, all, total, 0)
  {
  }

  lemma FlooredNext(targets: nat, scores: nat, all: nat, total: nat, n: nat, score: nat)
    requires all > 0 && Floored(targets, scores, all, total, n)
    ensures Floored(targets + total * score / all, scores + score, all, total, n + 1)
  {
    var target := total * score / all;
    DivMod(total * score, all);
    assert (targets + target) * all == targets * all + target * all;
    assert total * (scores + score) == total * scores + total * score;
    assert (n + 1) * (all - 1) == n * (all - 1) + (all - 1);
  }

  lemma {:induction false} TargetsFloor(list: seq<ValidatorRecord>, totalScore: nat, total: nat)
    requires totalScore > 0
    ensures Floored(SumBy(list, TargetOf(totalScore, total)), SumBy(list, Score()), totalScore, total, |list|)
  {
    if list == [] {
      FlooredNone(totalScore, total);
    } else {
      var most, last := list[..|list| - 1], list[|list| - 1];
      TargetsFloor(most, totalScore, total);
      FlooredNext(SumBy(most, TargetOf(totalScore, total)), SumBy(most, Score()), totalScore, total, |most|,
                  last.score);
    }
  }

  lemma FloorsWithin(targets: nat, total: nat, all: nat, n: nat)
    requires all > 0 && Floored(targets, all, all, total, n)
    ensures targets <= total <= targets + n && (n > 0 ==> total < targets + n)
  {
    CancelFactor(targets, total, all);
    assert (targets + n) * all == targets * all + n * (all - 1) + n;
    if n > 0 {
      CancelStrict(total, targets + n, all);
    } else {
      CancelFactor(total, targets, all);
    }
  }

  /** The targets of all validators add up to at most the total, and to more than the total less one
      lamport for each validator. */
  lemma TargetsSum(system: ValidatorSystem, total: nat)
    requires ValidatorTotals(system)
    ensures var targets := SumBy(system.list, TargetOf(system.totalScore, total));
            targets <= total && (system.totalScore > 0 ==> total < targets + |system.list|)
  {
    if system.totalScore == 0 {
      SumZero(system.list, TargetOf(system.totalScore, total));
    } else {
      TargetsFloor(system.list, system.totalScore, total);
      FloorsWithin(SumBy(system.list, TargetOf(system.totalScore, total)), total, system.totalScore, |system.list|);
    }
  }

  lemma {:induction false} SumWithin<T>(s: seq<T>, f: T -> nat, g: T -> nat, k: nat)
    requires forall j :: 0 <= j < |s| ==> f(s[j]) <= g(s[j]) + k
    ensures SumBy(s, f) <= SumBy(s, g) + |s| * k
  {
    if s != [] {
      SumWithin(s[..|s| - 1], f, g, k);
      assert |s| * k == (|s| - 1) * k + k;
    }
  }

  /** If one sum exceeds another by more than k for each member, some member exceeds by more than k. */
  lemma Pigeonhole<T>(s: seq<T>, f: T -> nat, g: T -> nat, k: nat)
    requires SumBy(s, f) > SumBy(s, g) + |s| * k
    ensures exists i :: 0 <= i < |s| && f(s[i]) > g(s[i]) + k
  {
    if forall i :: 0 <= i < |s| ==> f(s[i]) <= g(s[i]) + k {
      SumWithin(s, f, g, k);
    }
  }

  /** The total target of the moves exists exactly when the tickets are covered by active stake, stake
      cooling down and the real reserve, and the sum fits u64: otherwise the program stops. */
  lemma MoveTargetExactly(c: Chain)
    requires Backed(c)
    ensures var covered := c.validatorSystem.totalActive + TotalCooling(c) + (c.reserve - c.config.rentExempt);
            && (c.validatorSystem.totalActive + StakeDelta(c) < 0 <==> covered < c.ticketBalance)
            && (MoveTarget(c) == Err(TargetOutOfRange) <==>
                  (covered < c.ticketBalance || U64_LIMIT <= c.validatorSystem.totalActive + StakeDelta(c)))
            && (MoveTarget(c).Ok? || MoveTarget(c) == Err(TargetOutOfRange))
  {
  }

  // ---------- there is always work to do ----------

  /** A gap and a delta of at least the minimum stake pass the amount checks of stake_reserve. */
  lemma ReservePlanTakes(c: Chain, validator: ValidatorRecord, delta: nat, target: nat)
    requires StakeTarget(c.validatorSystem, validator, Min(c.validatorSystem.totalActive + delta, U64_MAX))
             == Ok(target)
    requires 0 < c.stakeSystem.minStake <= delta && validator.activeBalance + c.stakeSystem.minStake <= target
    ensures var plan := Cranks.ReservePlan(c, validator, delta);
            plan.Ok? && plan.value.Part? && c.stakeSystem.minStake <= plan.value.amount <= delta
  {
  }

  lemma SomeGap(system: ValidatorSystem, delta: nat, minStake: nat)
    requires ValidatorTotals(system) && system.totalScore > 0 && minStake > 0
    requires delta >= |system.list| * minStake
    ensures exists i :: 0 <= i < |system.list| &&
              TargetOf(system.totalScore, system.totalActive + delta)(system.list[i]) >= system.list[i].activeBalance
                + minStake
    ensures delta >= minStake
  {
    var n, total := |system.list|, system.totalActive + delta;
    var targets := TargetOf(system.totalScore, total);
    TargetsSum(system, total);
    assert n * minStake == n * (minStake - 1) + n;
    Pigeonhole(system.list, targets, Balance(), minStake - 1);
    MulMono(1, n, minStake);
  }

  /** When at least a minimum stake for each validator is to be staked, and fits u64 on top of the active
      stake, some validator is far enough under its target for stake_reserve to stake to it. */
  lemma SomeValidatorTakesStake(c: Chain)
    requires Books(c) && c.validatorSystem.totalScore > 0 && c.stakeSystem.minStake > 0
    requires StakeDelta(c) >= |c.validatorSystem.list| * c.stakeSystem.minStake
    requires c.validatorSystem.totalActive + |c.validatorSystem.list| * c.stakeSystem.minStake < U64_LIMIT
    ensures exists i :: 0 <= i < |c.validatorSystem.list| &&
              var plan := Cranks.ReservePlan(c, c.validatorSystem.list[i], StakeDelta(c));
              plan.Ok? && plan.value.Part? && c.stakeSystem.minStake <= plan.value.amount <= StakeDelta(c)
  {
    var system, total := c.validatorSystem, Min(c.validatorSystem.totalActive + StakeDelta(c), U64_MAX);
    SomeGap(system, total - system.totalActive, c.stakeSystem.minStake);
    var i :| 0 <= i < |system.list|
          && TargetOf(system.totalScore, system.totalActive + (total - system.totalActive))(system.list[i])
             >= system.list[i].activeBalance + c.stakeSystem.minStake;
    TargetExists(system, i, total);
    ReservePlanTakes(c, system.list[i], StakeDelta(c), TargetOf(system.totalScore, total)(system.list[i]));
  }

  /** When stake is to be unstaked and there is some, some validator is strictly over its target, so
      deactivate_stake finds something to unstake there. */
  lemma SomeValidatorGivesStake(c: Chain)
    requires Inv(c) && StakeDelta(c) < 0 && 0 < c.validatorSystem.totalActive
    ensures exists i :: 0 <= i < |c.validatorSystem.list| &&
              var validator := c.validatorSystem.list[i];
              var target := StakeTarget(c.validatorSystem, validator,
                                        SatSub(c.validatorSystem.totalActive, -StakeDelta(c)));
              target.Ok? && target.value < validator.activeBalance
  {
    var system := c.validatorSystem;
    var total := SatSub(system.totalActive, -StakeDelta(c));
    var targets := TargetOf(system.totalScore, total);
    TargetsSum(system, total);
    Pigeonhole(system.list, Balance(), targets, 0);
    var i :| 0 <= i < |system.list| && Balance()(system.list[i]) > targets(system.list[i]) + 0;
    TargetExists(system, i, total);
    var target := StakeTarget(system, system.list[i], total);
    assert target.Ok? && target.value < system.list[i].activeBalance;
  }
}
