/** The two lists of the ledger sit on the bytes of their accounts: whatever an instruction does to a
    list is at most three operations of the byte list, all of which succeed, so in every reachable state
    the bytes they leave read as the ledger's lists. */
module Storage {
  import opened Results
  import opened Calc
  import opened Sums
  import opened Records
  import opened State
  import opened Admin
  import opened Ledger
  import opened Machine
  import opened Borsh
  import opened ByteList
  import opened Invariants
  import Cranks
  import Users
  import opened CrankBooks
  import opened UpdateBooks
  import opened Scheduler

  // ---------- edits of a list ----------

  /** Operations that lead from one list to another, each of which succeeds, and write only items that
      stay in it. */
  ghost predicate Edits<I(!new)>(list: seq<I>, capacity: nat, ops: seq<Op<I>>, list': seq<I>) {
    && |ops| <= 3
    && IdealAll(list, capacity, ops).0 == list'
    && (forall reply :: reply in IdealAll(list, capacity, ops).1 ==> reply == Done)
    && forall op :: op in ops ==> ((op.Set? || op.Push?) ==> op.item in list')
  }

  ghost predicate Edited<I(!new)>(list: seq<I>, capacity: nat, list': seq<I>) {
    exists ops: seq<Op<I>> :: Edits(list, capacity, ops, list')
  }

  lemma IdealMore<I>(list: seq<I>, capacity: nat, ops: seq<Op<I>>, op: Op<I>)
    ensures var before := IdealAll(list, capacity, ops);
            var after := Ideal(before.0, capacity, op);
            IdealAll(list, capacity, ops + [op]) == (after.0, before.1 + [after.1])
  {
    assert (ops + [op])[..|ops|] == ops;
  }

  lemma Unedited<I(!new)>(list: seq<I>, capacity: nat)
    ensures Edited(list, capacity, list)
  {
    assert Edits(list, capacity, [], list);
  }

  lemma EditedOnce<I(!new)>(list: seq<I>, capacity: nat, op: Op<I>, list': seq<I>)
    requires Ideal(list, capacity, op) == (list', Done) && ((op.Set? || op.Push?) ==> op.item in list')
    ensures Edited(list, capacity, list')
  {
    IdealMore(list, capacity, [], op);
    assert [] + [op] == [op];
    assert Edits(list, capacity, [op], list');
  }

  lemma EditedTwice<I(!new)>(list: seq<I>, capacity: nat, op1: Op<I>, op2: Op<I>, list': seq<I>)
    requires var first := Ideal(list, capacity, op1);
             first.1 == Done && Ideal(first.0, capacity, op2) == (list', Done)
    requires ((op1.Set? || op1.Push?) ==> op1.item in list') && ((op2.Set? || op2.Push?) ==> op2.item in list')
    ensures Edited(list, capacity, list')
  {
    IdealMore(list, capacity, [], op1);
    IdealMore(list, capacity, [op1], op2);
    assert [] + [op1] == [op1] && [op1] + [op2] == [op1, op2];
    assert Edits(list, capacity, [op1, op2], list');
  }

  /** A written item and an appended one. */
  lemma EditedSetPush<I(!new)>(list: seq<I>, capacity: nat, i: nat, x: I, y: I)
    requires i < |list| < capacity
    ensures Edited(list, capacity, list[i := x] + [y])
  {
    var list' := list[i := x] + [y];
    assert (list + [y])[i := x] == list';
    assert list'[i] == x && list'[|list|] == y;
    EditedTwice(list, capacity, Push(y), Set(i, x), list');
  }

  /** A written item and two appended ones. */
  lemma EditedSetPushPush<I(!new)>(list: seq<I>, capacity: nat, i: nat, x: I, y: I, z: I)
    requires i < |list| && |list| + 1 < capacity
    ensures Edited(list, capacity, list[i := x] + [y] + [z])
  {
    var list' := list[i := x] + [y] + [z];
    assert (list + [y] + [z])[i := x] == list';
    assert list'[i] == x && list'[|list|] == y && list'[|list| + 1] == z;
    IdealMore(list, capacity, [], Push(y));
    IdealMore(list, capacity, [Push(y)], Push(z));
    IdealMore(list, capacity, [Push(y), Push(z)], Set(i, x));
    assert [] + [Push(y)] == [Push(y)] && [Push(y)] + [Push(z)] == [Push(y), Push(z)];
    assert [Push(y), Push(z)] + [Op.Set(i, x)] == [Push(y), Push(z), Op.Set(i, x)];
    assert Edits(list, capacity, [Push(y), Push(z), Op.Set(i, x)], list');
  }

  lemma EditedSet<I(!new)>(list: seq<I>, capacity: nat, i: nat, x: I)
    requires i < |list|
    ensures Edited(list, capacity, list[i := x])
  {
    assert list[i := x][i] == x;
    EditedOnce(list, capacity, Set(i, x), list[i := x]);
  }

  lemma EditedSetTwo<I(!new)>(list: seq<I>, capacity: nat, i: nat, x: I, j: nat, y: I)
    requires i < |list| && j < |list| && i != j
    ensures Edited(list, capacity, list[i := x][j := y])
  {
    assert list[i := x][j := y][i] == x && list[i := x][j := y][j] == y;
    EditedTwice(list, capacity, Set(i, x), Set(j, y), list[i := x][j := y]);
  }

  lemma EditedPush<I(!new)>(list: seq<I>, capacity: nat, x: I)
    requires |list| < capacity
    ensures Edited(list, capacity, list + [x])
  {
    assert (list + [x])[|list|] == x;
    EditedOnce(list, capacity, Push(x), list + [x]);
  }

  lemma EditedRemove<I(!new)>(list: seq<I>, capacity: nat, i: nat)
    requires i < |list|
    ensures Edited(list, capacity, SwapRemove(list, i))
  {
    EditedOnce(list, capacity, Remove(i), SwapRemove(list, i));
  }

  lemma EditedSetRemove<I(!new)>(list: seq<I>, capacity: nat, i: nat, x: I, j: nat)
    requires i < |list| && j < |list| && i != j
    ensures Edited(list, capacity, SwapRemove(list[i := x], j))
  {
    var list' := SwapRemove(list[i := x], j);
    if i < |list| - 1 {
      assert list'[i] == x;
    } else {
      assert list'[j] == x;
    }
    EditedTwice(list, capacity, Set(i, x), Remove(j), list');
  }

  // ---------- what each instruction does to the lists ----------

  ghost predicate StakesEdited(c: Chain, c': Chain) {
    && c'.stakeSystem.capacity == c.stakeSystem.capacity
    && Edited(c.stakeSystem.list, c.stakeSystem.capacity, c'.stakeSystem.list)
  }

  ghost predicate ValidatorsEdited(c: Chain, c': Chain) {
    && c'.validatorSystem.capacity == c.validatorSystem.capacity
    && Edited(c.validatorSystem.list, c.validatorSystem.capacity, c'.validatorSystem.list)
  }

  /** A successful instruction edits both lists. */
  ghost predicate ListsEdited(c: Chain, r: Result<Chain>) {
    r.Ok? ==> StakesEdited(c, r.value) && ValidatorsEdited(c, r.value)
  }

  lemma SameLists(c: Chain, r: Result<Chain>)
    requires r.Ok? ==>
               r.value.stakeSystem.list == c.stakeSystem.list
               && r.value.stakeSystem.capacity == c.stakeSystem.capacity
               && r.value.validatorSystem.list == c.validatorSystem.list
               && r.value.validatorSystem.capacity == c.validatorSystem.capacity
    ensures ListsEdited(c, r)
  {
    Unedited(c.stakeSystem.list, c.stakeSystem.capacity);
    Unedited(c.validatorSystem.list, c.validatorSystem.capacity);
  }

  /** One record and one validator are written back, and at most one record is appended. */
  lemma WrittenBack(c: Chain, stakeIndex: nat, stake: StakeRecord, added: seq<StakeRecord>, index: nat,
                    validator: ValidatorRecord, c': Chain)
    requires stakeIndex < |c.stakeSystem.list| && index < |c.validatorSystem.list|
    requires |added| <= 1 && (added != [] ==> |c.stakeSystem.list| < c.stakeSystem.capacity)
    requires c'.stakeSystem.list == c.stakeSystem.list[stakeIndex := stake] + added
    requires c'.stakeSystem.capacity == c.stakeSystem.capacity
             && c'.validatorSystem.capacity == c.validatorSystem.capacity
    requires c'.validatorSystem.list == c.validatorSystem.list[index := validator]
    ensures StakesEdited(c, c') && ValidatorsEdited(c, c')
  {
    if added == [] {
      assert c'.stakeSystem.list == c.stakeSystem.list[stakeIndex := stake];
      EditedSet(c.stakeSystem.list, c.stakeSystem.capacity, stakeIndex, stake);
    } else {
      assert added == [added[0]];
      EditedSetPush(c.stakeSystem.list, c.stakeSystem.capacity, stakeIndex, stake, added[0]);
    }
    EditedSet(c.validatorSystem.list, c.validatorSystem.capacity, index, validator);
  }

  lemma StakeEdits(c: Chain, now: Clock, index: nat, validator: ValidatorRecord, amount: nat, newKey: Key, rent: nat)
    requires index < |c.validatorSystem.list|
    ensures ListsEdited(c, Cranks.Stake(c, now, index, validator, amount, newKey, rent))
  {
    var r := Cranks.Stake(c, now, index, validator, amount, newKey, rent);
    if r.Ok? {
      EditedPush(c.stakeSystem.list, c.stakeSystem.capacity, StakeRecord(newKey, amount, now.epoch, 0));
      EditedSet(c.validatorSystem.list, c.validatorSystem.capacity, index,
                validator.(activeBalance := validator.activeBalance + amount, lastDeltaEpoch := now.epoch));
    }
  }

  lemma StakeByPlanEdits(c: Chain, now: Clock, index: nat, validator: ValidatorRecord, delta: nat, newKey: Key,
                         rent: nat)
    requires index < |c.validatorSystem.list|
    ensures ListsEdited(c, Cranks.StakeByPlan(c, now, index, validator, delta, newKey, rent))
  {
    var plan := Cranks.ReservePlan(c, validator, delta);
    if plan.Ok? && plan.value.Part? {
      StakeEdits(c, now, index, validator, plan.value.amount, newKey, rent);
    } else {
      SameLists(c, Cranks.StakeByPlan(c, now, index, validator, delta, newKey, rent));
    }
  }

  lemma StakeReserveEdits(c: Chain, now: Clock, index: nat, vote: Key, newKey: Key, rent: nat)
    ensures ListsEdited(c, Cranks.StakeReserve(c, now, index, vote, newKey, rent))
  {
    var delta := StakeDelta(c);
    var found := GetValidator(c.validatorSystem, index, vote);
    SameLists(c, Ok(c));
    if 0 < delta && found.Ok? {
      if found.value.lastDeltaEpoch != now.epoch {
        StakeByPlanEdits(c, now, index, found.value, delta, newKey, rent);
      } else if c.stakeSystem.extraRuns > 0 {
        StakeByPlanEdits(Cranks.UseExtraRun(c), now, index, found.value, delta, newKey, rent);
      }
    }
  }

  lemma DeactivateWholeEdits(c: Chain, now: Clock, stakeIndex: nat, stake: StakeRecord, index: nat,
                             validator: ValidatorRecord)
    requires stakeIndex < |c.stakeSystem.list| && index < |c.validatorSystem.list|
    ensures ListsEdited(c, Cranks.DeactivateWhole(c, now, stakeIndex, stake, index, validator))
  {
    var r := Cranks.DeactivateWhole(c, now, stakeIndex, stake, index, validator);
    if r.Ok? {
      WrittenBack(c, stakeIndex, stake, [], index,
                  validator.(activeBalance := validator.activeBalance - stake.lamports), r.value);
    }
  }

  lemma DeactivatePartEdits(c: Chain, now: Clock, stakeIndex: nat, stake: StakeRecord, index: nat,
                            validator: ValidatorRecord,
                            amount: nat, splitKey: Key, rent: nat)
    requires stakeIndex < |c.stakeSystem.list| && index < |c.validatorSystem.list|
    ensures ListsEdited(c, Cranks.DeactivatePart(c, now, stakeIndex, stake, index, validator, amount, splitKey, rent))
  {
    var r := Cranks.DeactivatePart(c, now, stakeIndex, stake, index, validator, amount, splitKey, rent);
    if r.Ok? {
      WrittenBack(c, stakeIndex, stake.(lamports := stake.lamports - amount),
                  [StakeRecord(splitKey, amount, now.epoch, 0)], index,
                  validator.(activeBalance := validator.activeBalance - amount, lastDeltaEpoch := now.epoch), r.value);
    }
  }

  lemma DeactivateStakeEdits(c: Chain, now: Clock, stakeIndex: nat, index: nat, key: Key, splitKey: Key, rent: nat)
    ensures ListsEdited(c, Cranks.DeactivateStake(c, now, stakeIndex, index, key, splitKey, rent))
  {
    hide Edited, Cranks.DeactivatePlan, Cranks.DeactivateWhole, Cranks.DeactivatePart;
    SameLists(c, Ok(c));
    var r := Cranks.DeactivateStake(c, now, stakeIndex, index, key, splitKey, rent);
    if r.Ok? {
      var stake, validator := c.stakeSystem.list[stakeIndex], c.validatorSystem.list[index];
      var plan := Cranks.DeactivatePlan(c, now, stake, validator, -StakeDelta(c)).value;
      if plan.Whole? {
        DeactivateWholeEdits(c, now, stakeIndex, stake, index, validator);
      } else if plan.Part? {
        DeactivatePartEdits(c, now, stakeIndex, stake, index, validator, plan.amount, splitKey, rent);
      }
    }
  }

  lemma EmergencyUnstakeEdits(c: Chain, now: Clock, stakeIndex: nat, index: nat, key: Key)
    ensures ListsEdited(c, Cranks.EmergencyUnstake(c, now, stakeIndex, index, key))
  {
    var r := Cranks.EmergencyUnstake(c, now, stakeIndex, index, key);
    if r.Ok? {
      var stake, validator := c.stakeSystem.list[stakeIndex], c.validatorSystem.list[index];
      WrittenBack(c, stakeIndex, stake.(emergency := 1), [], index,
                  validator.(activeBalance := validator.activeBalance - stake.lamports), r.value);
    }
  }

  lemma PartialWholeEdits(c: Chain, now: Clock, stakeIndex: nat, stake: StakeRecord, index: nat,
                          validator: ValidatorRecord)
    requires stakeIndex < |c.stakeSystem.list| && index < |c.validatorSystem.list|
    ensures ListsEdited(c, Cranks.PartialWhole(c, now, stakeIndex, stake, index, validator))
  {
    var r := Cranks.PartialWhole(c, now, stakeIndex, stake, index, validator);
    if r.Ok? {
      WrittenBack(c, stakeIndex, stake.(emergency := 1), [], index,
                  validator.(activeBalance := validator.activeBalance - stake.lamports), r.value);
    }
  }

  lemma PartialPartEdits(c: Chain, now: Clock, stakeIndex: nat, stake: StakeRecord, index: nat,
                         validator: ValidatorRecord,
                         amount: nat, splitKey: Key, rent: nat)
    requires stakeIndex < |c.stakeSystem.list| && index < |c.validatorSystem.list|
    ensures ListsEdited(c, Cranks.PartialPart(c, now, stakeIndex, stake, index, validator, amount, splitKey, rent))
  {
    var r := Cranks.PartialPart(c, now, stakeIndex, stake, index, validator, amount, splitKey, rent);
    if r.Ok? {
      WrittenBack(c, stakeIndex, stake.(lamports := stake.lamports - amount),
                  [StakeRecord(splitKey, amount, now.epoch, 1)], index,
                  validator.(activeBalance := validator.activeBalance - amount), r.value);
    }
  }

  lemma PartialUnstakeEdits(c: Chain, now: Clock, stakeIndex: nat, index: nat, desired: nat, key: Key, splitKey: Key,
                            rent: nat)
    ensures ListsEdited(c, Cranks.PartialUnstake(c, now, stakeIndex, index, desired, key, splitKey, rent))
  {
    SameLists(c, Ok(c));
    var r := Cranks.PartialUnstake(c, now, stakeIndex, index, desired, key, splitKey, rent);
    if r.Ok? {
      var stake, validator := c.stakeSystem.list[stakeIndex], c.validatorSystem.list[index];
      var plan := Cranks.PartialPlan(c, stake, validator, desired).value;
      if plan.Whole? {
        PartialWholeEdits(c, now, stakeIndex, stake, index, validator);
      } else if plan.Part? {
        PartialPartEdits(c, now, stakeIndex, stake, index, validator, plan.amount, splitKey, rent);
      }
    }
  }

  lemma RedelegateWholeEdits(c: Chain, now: Clock, stakeIndex: nat, stake: StakeRecord, i: nat, source: ValidatorRecord,
                             j: nat, dest: ValidatorRecord, newKey: Key, rent: nat)
    requires stakeIndex < |c.stakeSystem.list| && i < |c.validatorSystem.list| && j < |c.validatorSystem.list| && i != j
    ensures ListsEdited(c, Cranks.RedelegateWhole(c, now, stakeIndex, stake, i, source, j, dest, newKey, rent))
  {
    var r := Cranks.RedelegateWhole(c, now, stakeIndex, stake, i, source, j, dest, newKey, rent);
    if r.Ok? {
      var rest, moved := stake.(emergency := 0, lamports := 0), StakeRecord(newKey, stake.lamports, now.epoch, 0);
      assert r.value.stakeSystem.list == c.stakeSystem.list[stakeIndex := rest] + [moved];
      EditedSetPush(c.stakeSystem.list, c.stakeSystem.capacity, stakeIndex, rest, moved);
      EditedSetTwo(c.validatorSystem.list, c.validatorSystem.capacity,
                   i, source.(activeBalance := source.activeBalance - stake.lamports),
                   j, dest.(activeBalance := dest.activeBalance + stake.lamports));
    }
  }

  lemma RedelegatePartEdits(c: Chain, now: Clock, stakeIndex: nat, stake: StakeRecord, i: nat, source: ValidatorRecord,
                            j: nat, dest: ValidatorRecord, amount: nat, splitKey: Key, newKey: Key, rent: nat)
    requires stakeIndex < |c.stakeSystem.list| && i < |c.validatorSystem.list| && j < |c.validatorSystem.list| && i != j
    ensures ListsEdited(c, Cranks.RedelegatePart(c, now, stakeIndex, stake, i, source, j, dest, amount, splitKey,
                                                 newKey, rent))
  {
    var r := Cranks.RedelegatePart(c, now, stakeIndex, stake, i, source, j, dest, amount, splitKey, newKey, rent);
    if r.Ok? {
      var rest := stake.(lamports := stake.lamports - amount);
      var empty, moved := StakeRecord(splitKey, 0, now.epoch, 0), StakeRecord(newKey, amount, now.epoch, 0);
      assert r.value.stakeSystem.list == c.stakeSystem.list[stakeIndex := rest] + [empty] + [moved];
      EditedSetPushPush(c.stakeSystem.list, c.stakeSystem.capacity, stakeIndex, rest, empty, moved);
      EditedSetTwo(c.validatorSystem.list, c.validatorSystem.capacity,
                   i, source.(activeBalance := source.activeBalance - amount),
                   j, dest.(activeBalance := dest.activeBalance + amount));
    }
  }

  lemma RedelegateEdits(c: Chain, now: Clock, stakeIndex: nat, i: nat, j: nat, key: Key, destVote: Key, splitKey: Key,
                        newKey: Key, rent: nat)
    ensures ListsEdited(c, Cranks.Redelegate(c, now, stakeIndex, i, j, key, destVote, splitKey, newKey, rent))
  {
    SameLists(c, Ok(c));
    var r := Cranks.Redelegate(c, now, stakeIndex, i, j, key, destVote, splitKey, newKey, rent);
    if r.Ok? {
      var stake, source, dest := c.stakeSystem.list[stakeIndex], c.validatorSystem.list[i],
        GetValidator(c.validatorSystem, j, destVote);
      var plan := Cranks.RedelegatePlan(c, stake, source, dest).value;
      if plan.Whole? {
        RedelegateWholeEdits(c, now, stakeIndex, stake, i, source, j, dest.value, newKey, rent);
      } else if plan.Part? {
        RedelegatePartEdits(c, now, stakeIndex, stake, i, source, j, dest.value, plan.amount, splitKey, newKey, rent);
      }
    }
  }

  lemma MergeRecordsEdits(c: Chain, destIndex: nat, dest: StakeRecord, sourceIndex: nat, source: StakeRecord,
                          index: nat, validator: ValidatorRecord, extra: nat)
    requires CrankBooks.Found(c, destIndex, dest, index, validator)
             && CrankBooks.Found(c, sourceIndex, source, index, validator)
    ensures ListsEdited(c, Cranks.MergeRecords(c, destIndex, dest, sourceIndex, source, index, validator, extra))
  {
    if Cranks.MergeRecords(c, destIndex, dest, sourceIndex, source, index, validator, extra).Ok? {
      MergeRecordsEffect(c, destIndex, dest, sourceIndex, source, index, validator, extra);
      EditedSetRemove(c.stakeSystem.list, c.stakeSystem.capacity, destIndex,
                      dest.(lamports := dest.lamports + source.lamports + extra), sourceIndex);
      EditedSet(c.validatorSystem.list, c.validatorSystem.capacity, index,
                validator.(activeBalance := validator.activeBalance + extra));
    }
  }

  lemma MergeStakesEdits(c: Chain, destIndex: nat, sourceIndex: nat, index: nat, destKey: Key, sourceKey: Key,
                         extra: nat)
    ensures ListsEdited(c, Cranks.MergeStakes(c, destIndex, sourceIndex, index, destKey, sourceKey, extra))
  {
    if Cranks.MergeStakes(c, destIndex, sourceIndex, index, destKey, sourceKey, extra).Ok? {
      MergeRecordsEdits(c, destIndex, c.stakeSystem.list[destIndex], sourceIndex, c.stakeSystem.list[sourceIndex],
                        index, c.validatorSystem.list[index], extra);
    }
  }

  lemma ObserveEdits(c: Chain, index: nat, validator: ValidatorRecord, before: nat, delegated: nat, ready: bool)
    requires index < |c.validatorSystem.list|
    ensures var r := Cranks.ObserveDelegation(c, index, validator, before, delegated, ready);
            r.Ok? ==> r.value.stakeSystem == c.stakeSystem && ValidatorsEdited(c, r.value)
  {
    var r := Cranks.ObserveDelegation(c, index, validator, before, delegated, ready);
    if r.Ok? {
      EditedSet(c.validatorSystem.list, c.validatorSystem.capacity, index, r.value.validatorSystem.list[index]);
    }
  }

  lemma BookActiveEdits(c: Chain, now: Clock, stakeIndex: nat, stake: StakeRecord, index: nat,
                        validator: ValidatorRecord,
                        account: StakeAccount, ready: bool)
    requires stakeIndex < |c.stakeSystem.list| && index < |c.validatorSystem.list|
    ensures ListsEdited(c, Cranks.BookActive(c, now, stakeIndex, stake, index, validator, account, ready))
  {
    if Cranks.BookActive(c, now, stakeIndex, stake, index, validator, account, ready).Ok? {
      var extra := SatSub(account.lamports - account.rent, account.stake);
      TakeExtraIsFunds(c, stake.account, extra, ready);
      ObserveEdits(Cranks.TakeExtra(c, stake.account, extra, ready).value, index, validator, stake.lamports,
                   account.stake, ready);
      EditedSet(c.stakeSystem.list, c.stakeSystem.capacity, stakeIndex,
                stake.(epoch := now.epoch, lamports := account.stake));
    }
  }

  lemma UpdateActiveEdits(c: Chain, now: Clock, stakeIndex: nat, index: nat, key: Key, ready: bool)
    ensures ListsEdited(c, Cranks.UpdateActive(c, now, stakeIndex, index, key, ready))
  {
    var r := Cranks.UpdateActive(c, now, stakeIndex, index, key, ready);
    if r.Ok? {
      var stake, validator, account := c.stakeSystem.list[stakeIndex], c.validatorSystem.list[index], c.stakes[key];
      BookActiveEdits(Cranks.Begin(c), now, stakeIndex, stake, index, validator, account, ready);
      var booked := Cranks.BookActive(Cranks.Begin(c), now, stakeIndex, stake, index, validator, account, ready).value;
      assert r.value == booked.(msolPrice := r.value.msolPrice);
    }
  }

  lemma CloseCooledEdits(c: Chain, stakeIndex: nat, stake: StakeRecord, account: StakeAccount)
    requires stakeIndex < |c.stakeSystem.list|
    ensures ListsEdited(c, Cranks.CloseCooled(c, stakeIndex, stake, account))
  {
    EditedRemove(c.stakeSystem.list, c.stakeSystem.capacity, stakeIndex);
    Unedited(c.validatorSystem.list, c.validatorSystem.capacity);
  }

  lemma UpdateDeactivatedEdits(c: Chain, stakeIndex: nat, key: Key, ready: bool)
    ensures ListsEdited(c, Cranks.UpdateDeactivated(c, stakeIndex, key, ready))
  {
    var r := Cranks.UpdateDeactivated(c, stakeIndex, key, ready);
    if r.Ok? {
      var c1, stake, account := Cranks.Begin(c), c.stakeSystem.list[stakeIndex], c.stakes[key];
      var balance := account.lamports - account.rent;
      CooledFeesIsFunds(c1, stake.lamports, balance, ready);
      var c2 := Cranks.CooledFees(c1, stake.lamports, balance, ready).value;
      CloseCooledEdits(c2, stakeIndex, stake, account);
      var c3 := Cranks.CloseCooled(c2, stakeIndex, stake, account).value;
      assert r.value == c3.(msolPrice := r.value.msolPrice);
    }
  }

  lemma DepositStakeAccountEdits(c: Chain, now: Clock, key: Key, account: StakeAccount, activationEpoch: nat,
                                 index: nat)
    ensures ListsEdited(c, Users.DepositStakeAccount(c, now, key, account, activationEpoch, index))
  {
    var r := Users.DepositStakeAccount(c, now, key, account, activationEpoch, index);
    if r.Ok? {
      var validator := c.validatorSystem.list[index];
      EditedPush(c.stakeSystem.list, c.stakeSystem.capacity, StakeRecord(key, account.stake, now.epoch, 0));
      EditedSet(c.validatorSystem.list, c.validatorSystem.capacity, index,
                validator.(activeBalance := validator.activeBalance + account.stake));
    }
  }

  lemma WithdrawStakeAccountEdits(c: Chain, stakeIndex: nat, index: nat, msol: nat, funds: nat, key: Key, splitKey: Key,
                                  rent: nat, ready: bool)
    ensures ListsEdited(c, Users.WithdrawStakeAccount(c, stakeIndex, index, msol, funds, key, splitKey, rent, ready))
  {
    var r := Users.WithdrawStakeAccount(c, stakeIndex, index, msol, funds, key, splitKey, rent, ready);
    if r.Ok? {
      WithdrawIsHandOut(c, stakeIndex, index, msol, funds, key, splitKey, rent, ready);
      var lamports := Users.SplitLamports(c, msol).value;
      var stake, validator := c.stakeSystem.list[stakeIndex], c.validatorSystem.list[index];
      WrittenBack(c, stakeIndex, stake.(lamports := stake.lamports - lamports), [], index,
                  validator.(activeBalance := validator.activeBalance - lamports), r.value);
    }
  }

  lemma ValidatorListEdits(c: Chain, index: nat, vote: Key, score: u32, bump: u8)
    ensures ListsEdited(c, Admin.AddValidator(c, vote, score, bump))
    ensures ListsEdited(c, Admin.RemoveValidator(c, index, vote))
    ensures ListsEdited(c, Admin.SetValidatorScore(c, index, vote, score))
  {
    var list, capacity := c.validatorSystem.list, c.validatorSystem.capacity;
    Unedited(c.stakeSystem.list, c.stakeSystem.capacity);
    if |list| < capacity {
      EditedPush(list, capacity, ValidatorRecord(vote, 0, score, NEVER, bump));
    }
    if index < |list| {
      EditedRemove(list, capacity, index);
      EditedSet(list, capacity, index, list[index].(score := score));
    }
  }

  // ---------- every step ----------

  lemma UserEditsLists(c: Chain, now: Clock, a: Action)
    requires IsUser(a)
    ensures ListsEdited(c, UserStep(c, now, a))
  {
    if a.DepositStakeAccount? {
      DepositStakeAccountEdits(c, now, a.key, a.account, a.activationEpoch, a.index);
    } else if a.WithdrawStakeAccount? {
      WithdrawStakeAccountEdits(c, a.stakeIndex, a.index, a.msol, a.funds, a.key, a.splitKey, a.rent, a.ready);
    } else {
      SameLists(c, UserStep(c, now, a));
    }
  }

  lemma PoolEditsLists(c: Chain, a: Action)
    requires IsPool(a)
    ensures ListsEdited(c, PoolStep(c, a))
  {
    SameLists(c, PoolStep(c, a));
  }

  lemma RebalanceEditsLists(c: Chain, now: Clock, a: Action)
    requires IsRebalance(a)
    ensures ListsEdited(c, RebalanceStep(c, now, a))
  {
    match a
    case StakeReserve(index, vote, newKey, rent) => StakeReserveEdits(c, now, index, vote, newKey, rent);
    case DeactivateStake(stakeIndex, index, key, splitKey, rent) =>
      DeactivateStakeEdits(c, now, stakeIndex, index, key, splitKey, rent);
    case EmergencyUnstake(stakeIndex, index, key) => EmergencyUnstakeEdits(c, now, stakeIndex, index, key);
    case PartialUnstake(stakeIndex, index, desired, key, splitKey, rent) =>
      PartialUnstakeEdits(c, now, stakeIndex, index, desired, key, splitKey, rent);
    case Redelegate(stakeIndex, i, j, key, destVote, splitKey, newKey, rent) =>
      RedelegateEdits(c, now, stakeIndex, i, j, key, destVote, splitKey, newKey, rent);
  }

  lemma UpkeepEditsLists(c: Chain, now: Clock, a: Action)
    requires IsUpdate(a) || a.MergeStakes?
    ensures ListsEdited(c, UpkeepStep(c, now, a))
  {
    match a
    case MergeStakes(destIndex, sourceIndex, index, destKey, sourceKey, extra) =>
      MergeStakesEdits(c, destIndex, sourceIndex, index, destKey, sourceKey, extra);
    case UpdateActive(stakeIndex, index, key, ready) => UpdateActiveEdits(c, now, stakeIndex, index, key, ready);
    case UpdateDeactivated(stakeIndex, key, ready) => UpdateDeactivatedEdits(c, stakeIndex, key, ready);
  }

  lemma AdminEditsLists(c: Chain, a: Action)
    requires IsAdmin(a)
    ensures ListsEdited(c, AdminStep(c, a))
  {
    if a.AddValidator? {
      ValidatorListEdits(c, 0, a.vote, a.score, a.bump);
    } else if a.RemoveValidator? {
      ValidatorListEdits(c, a.index, a.vote, 0, 0);
    } else if a.SetValidatorScore? {
      ValidatorListEdits(c, a.index, a.vote, a.score, 0);
    } else {
      SameLists(c, AdminStep(c, a));
    }
  }

  lemma OutsideKeepsLists(c: Chain, a: Action)
    requires Outside(a)
    ensures ListsEdited(c, OutsideStep(c, a))
  {
    SameLists(c, OutsideStep(c, a));
  }

  /** Every step of the machine edits each list by at most three operations that succeed. */
  lemma StepEditsLists(c: Chain, e: Event)
    ensures ListsEdited(c, Step(c, e))
  {
    var a := e.action;
    if Outside(a) {
      OutsideKeepsLists(c, a);
    } else if IsUser(a) {
      UserEditsLists(c, e.now, a);
    } else if IsPool(a) {
      PoolEditsLists(c, a);
    } else if IsRebalance(a) {
      RebalanceEditsLists(c, e.now, a);
    } else if IsAdmin(a) {
      AdminEditsLists(c, a);
    } else {
      UpkeepEditsLists(c, e.now, a);
    }
  }

  // ---------- the bytes ----------

  /** Operations that all succeed on the bytes and leave them reading as a list. */
  ghost predicate Leads<I(!new)>(image: Image, codec: Codec<I>, ops: seq<Op<I>>, list: seq<I>)
    requires WellFormed(image)
  {
    var after := PerformAll(image, codec, ops);
    && Holds(after.0, codec, list) && after.0.capacity == image.capacity
    && (forall reply :: reply in after.1 ==> reply == Done)
    && forall k :: 0 <= k < |ops| ==> StorableOp(codec, ops[k])
  }

  lemma EditsLead<I(!new)>(image: Image, codec: Codec<I>, list: seq<I>, list': seq<I>)
    requires Lawful(codec) && Holds(image, codec, list) && Edited(list, image.capacity.value, list')
    requires forall item :: item in list' ==> codec.storable(item)
    ensures exists ops: seq<Op<I>> :: |ops| <= 3 && Leads(image, codec, ops, list')
  {
    var ops: seq<Op<I>> :| Edits(list, image.capacity.value, ops, list');
    forall k | 0 <= k < |ops|
      ensures StorableOp(codec, ops[k])
    {
      assert ops[k] in ops;
    }
    RunRefines(image, codec, list, ops);
    assert |ops| <= 3 && Leads(image, codec, ops, list');
  }

  lemma {:induction false} PerformMore<I>(image: Image, codec: Codec<I>, ops: seq<Op<I>>, more: seq<Op<I>>)
    requires WellFormed(image)
    ensures var before := PerformAll(image, codec, ops);
            var after := PerformAll(before.0, codec, more);
            PerformAll(image, codec, ops + more) == (after.0, before.1 + after.1)
  {
    if more == [] {
      assert ops + more == ops;
      assert PerformAll(image, codec, ops).1 + [] == PerformAll(image, codec, ops).1;
    } else {
      var n := |more| - 1;
      PerformMore(image, codec, ops, more[..n]);
      assert (ops + more)[..|ops + more| - 1] == ops + more[..n] && (ops + more)[|ops + more| - 1] == more[n];
      var before := PerformAll(image, codec, ops);
      var most := PerformAll(before.0, codec, more[..n]);
      var reply := Perform(most.0, codec, more[n]).1;
      assert before.1 + most.1 + [reply] == before.1 + (most.1 + [reply]);
    }
  }

  lemma LeadsOn<I(!new)>(image: Image, codec: Codec<I>, ops: seq<Op<I>>, list: seq<I>, more: seq<Op<I>>, list': seq<I>)
    requires WellFormed(image) && Leads(image, codec, ops, list)
    requires Leads(PerformAll(image, codec, ops).0, codec, more, list')
    ensures Leads(image, codec, ops + more, list')
  {
    PerformMore(image, codec, ops, more);
    forall k | 0 <= k < |ops + more|
      ensures StorableOp(codec, (ops + more)[k])
    {
      if k < |ops| {
        assert (ops + more)[k] == ops[k];
      } else {
        assert (ops + more)[k] == more[k - |ops|];
      }
    }
  }

  lemma EditsLeadOn<I(!new)>(image: Image, codec: Codec<I>, ops: seq<Op<I>>, list: seq<I>, list': seq<I>)
    requires Lawful(codec) && WellFormed(image) && Leads(image, codec, ops, list)
    requires Edited(list, image.capacity.value, list')
    requires forall item :: item in list' ==> codec.storable(item)
    ensures exists all: seq<Op<I>> :: Leads(image, codec, all, list')
  {
    var after := PerformAll(image, codec, ops).0;
    EditsLead(after, codec, list, list');
    var more: seq<Op<I>> :| Leads(after, codec, more, list');
    LeadsOn(image, codec, ops, list, more, list');
    assert Leads(image, codec, ops + more, list');
  }

  /** What is booked for one vote is at most the total. */
  lemma BookedFits(c: Chain, bucket: Bucket)
    requires Inv(c)
    ensures Booked(c, bucket) < U64_LIMIT
  {
    if bucket.Active? {
      SumWithin(c.validatorSystem.list, OnVote(bucket.vote), Balance(), 0);
    }
  }

  /** Every record of either list fits its byte form. */
  lemma ListsStorable(c: Chain)
    requires Inv(c)
    ensures forall record :: record in c.stakeSystem.list ==> StorableStake(record)
    ensures forall validator :: validator in c.validatorSystem.list ==> StorableValidator(validator)
  {
    forall i | 0 <= i < |c.stakeSystem.list|
      ensures StorableStake(c.stakeSystem.list[i])
    {
      RecordBooked(c, i);
      BookedFits(c, BucketOf(c.stakes, c.stakeSystem.list[i]));
    }
    forall i | 0 <= i < |c.validatorSystem.list|
      ensures StorableValidator(c.validatorSystem.list[i])
    {
      SumMember(c.validatorSystem.list, Balance(), i);
    }
  }

  /** The accounts of both lists read as the lists of the ledger, with the same room. */
  ghost predicate Stored(c: Chain, stakes: Image, validators: Image) {
    && Holds(stakes, STAKE_CODEC, c.stakeSystem.list) && stakes.capacity == Ok(c.stakeSystem.capacity)
    && Holds(validators, VALIDATOR_CODEC, c.validatorSystem.list)
       && validators.capacity == Ok(c.validatorSystem.capacity)
  }

  lemma StepEditsStorably(c: Chain, e: Event)
    requires Inv(c)
    ensures var c' := Exec(c, e);
            && StakesEdited(c, c') && ValidatorsEdited(c, c')
            && (forall record :: record in c'.stakeSystem.list ==> StorableStake(record))
            && forall validator :: validator in c'.validatorSystem.list ==> StorableValidator(validator)
  {
    StepIsSound(c, e);
    StepEditsLists(c, e);
    SameLists(c, Ok(c));
    ListsStorable(Exec(c, e));
  }

  /** Whatever happens, at most three operations on each account's bytes, all of which succeed, make them
      read as the ledger's lists again. */
  lemma StepOnBytes(c: Chain, e: Event, stakes: Image, validators: Image)
    requires Inv(c) && Stored(c, stakes, validators)
    ensures exists ops: seq<Op<StakeRecord>> ::
            |ops| <= 3 && Leads(stakes, STAKE_CODEC, ops, Exec(c, e).stakeSystem.list)
    ensures exists ops: seq<Op<ValidatorRecord>> ::
            |ops| <= 3 && Leads(validators, VALIDATOR_CODEC, ops, Exec(c, e).validatorSystem.list)
  {
    StepEditsStorably(c, e);
    StakeCodecIsLawful();
    ValidatorCodecIsLawful();
    EditsLead(stakes, STAKE_CODEC, c.stakeSystem.list, Exec(c, e).stakeSystem.list);
    EditsLead(validators, VALIDATOR_CODEC, c.validatorSystem.list, Exec(c, e).validatorSystem.list);
  }

  /** In every state a run from creation reaches, the ledger's lists are what a run of byte operations,
      all of which succeed, has left in the accounts the pool was created with. */
  lemma {:induction false} RunOnBytes(p: InitializeData, events: seq<Event>, stakes: Image, validators: Image)
    requires Initialize(p).Ok? && Stored(Initialize(p).value, stakes, validators)
    ensures BytesReach(Run(Initialize(p).value, events), stakes, validators)
  {
    var start := Initialize(p).value;
    if events == [] {
      assert Leads(stakes, STAKE_CODEC, [], start.stakeSystem.list);
      assert Leads(validators, VALIDATOR_CODEC, [], start.validatorSystem.list);
    } else {
      var most := events[..|events| - 1];
      RunOnBytes(p, most, stakes, validators);
      InitialState(p);
      RunKeepsInv(start, most);
      BytesReachOn(Run(start, most), events[|events| - 1], stakes, validators);
    }
  }

  /** Some operations that all succeed make each account read as the ledger's list. */
  ghost predicate BytesReach(c: Chain, stakes: Image, validators: Image) {
    && WellFormed(stakes) && WellFormed(validators)
    && stakes.capacity == Ok(c.stakeSystem.capacity) && validators.capacity == Ok(c.validatorSystem.capacity)
    && (exists ops: seq<Op<StakeRecord>> :: Leads(stakes, STAKE_CODEC, ops, c.stakeSystem.list))
    && exists ops: seq<Op<ValidatorRecord>> :: Leads(validators, VALIDATOR_CODEC, ops, c.validatorSystem.list)
  }

  lemma BytesReachOn(c: Chain, e: Event, stakes: Image, validators: Image)
    requires Inv(c) && BytesReach(c, stakes, validators)
    ensures BytesReach(Exec(c, e), stakes, validators)
  {
    hide Inv, Step, Leads, Edited;
    StepEditsStorably(c, e);
    StakeCodecIsLawful();
    ValidatorCodecIsLawful();
    var ops: seq<Op<StakeRecord>> :| Leads(stakes, STAKE_CODEC, ops, c.stakeSystem.list);
    EditsLeadOn(stakes, STAKE_CODEC, ops, c.stakeSystem.list, Exec(c, e).stakeSystem.list);
    var more: seq<Op<ValidatorRecord>> :| Leads(validators, VALIDATOR_CODEC, more, c.validatorSystem.list);
    EditsLeadOn(validators, VALIDATOR_CODEC, more, c.validatorSystem.list, Exec(c, e).validatorSystem.list);
  }

  /** Two accounts of enough room, just initialised, store the lists of a new pool. */
  lemma NewAccountsStore(p: InitializeData, stakes: seq<byte>, stakeSize: nat, validators: seq<byte>,
                         validatorSize: nat)
    requires Initialize(p).Ok?
    requires CapacityOf(|stakes|, stakeSize) == Ok(p.stakeCapacity) && STAKE_RECORD_SIZE <= stakeSize
    requires CapacityOf(|validators|, validatorSize) == Ok(p.validatorCapacity)
             && VALIDATOR_RECORD_SIZE <= validatorSize
    ensures Stored(Initialize(p).value, Empty(stakes, stakeSize), Empty(validators, validatorSize))
  {
  }

  /** From two fresh accounts of the promised room on, whatever happens to the pool, operations on their
      bytes that all succeed make them read as the ledger's lists. */
  lemma CreatedOnBytes(p: InitializeData, events: seq<Event>, stakes: seq<byte>, stakeSize: nat,
                       validators: seq<byte>, validatorSize: nat)
    requires Initialize(p).Ok?
    requires CapacityOf(|stakes|, stakeSize) == Ok(p.stakeCapacity) && STAKE_RECORD_SIZE <= stakeSize
    requires CapacityOf(|validators|, validatorSize) == Ok(p.validatorCapacity)
             && VALIDATOR_RECORD_SIZE <= validatorSize
    ensures BytesReach(Run(Initialize(p).value, events), Empty(stakes, stakeSize), Empty(validators, validatorSize))
  {
    NewAccountsStore(p, stakes, stakeSize, validators, validatorSize);
    RunOnBytes(p, events, Empty(stakes, stakeSize), Empty(validators, validatorSize));
  }

  /** What the ledger reads, and when it runs out of room, is what the bytes say. */
  lemma BytesAnswerForLedger(c: Chain, stakes: Image, validators: Image, index: nat, record: StakeRecord)
    requires Stored(c, stakes, validators) && StorableStake(record)
    ensures Perform(stakes, STAKE_CODEC, Get(index)).1
            == match State.Get(c.stakeSystem.list, index)
               case Ok(item) => Reply.Found(item)
               case Err(error) => Failed(error)
    ensures Perform(validators, VALIDATOR_CODEC, Get(index)).1
            == match State.Get(c.validatorSystem.list, index)
               case Ok(item) => Reply.Found(item)
               case Err(error) => Failed(error)
    ensures Perform(stakes, STAKE_CODEC, Push(record)).1
            == match AddStake(c.stakeSystem, record.account, record.lamports, record.epoch, record.emergency)
               case Ok(_) => Done
               case Err(error) => Failed(error)
  {
    StakeCodecIsLawful();
    ValidatorCodecIsLawful();
    OperationRefines(stakes, STAKE_CODEC, c.stakeSystem.list, Op.Get(index));
    OperationRefines(validators, VALIDATOR_CODEC, c.validatorSystem.list, Op.Get(index));
    OperationRefines(stakes, STAKE_CODEC, c.stakeSystem.list, Push(record));
  }
}
