/** The invariant of every reachable state: the totals the program keeps by hand agree with the
    records and accounts they summarise, and the real balances back the virtual ones. */
module Ledger {
  import opened Results
  import opened Calc
  import opened Sums
  import opened Records
  import opened State
  import opened Admin

  // ---------- records and buckets ----------

  /** Where the lamports of a record count: as active stake of a validator, or as cooling down. */
  datatype Bucket = Active(vote: Key) | Delayed | Emergency | Lost

  function BucketOf(stakes: map<Key, StakeAccount>, record: StakeRecord): Bucket {
    if record.account !in stakes then Lost
    else if !stakes[record.account].deactivating then Active(stakes[record.account].voter)
    else if record.emergency == 0 then Delayed
    else Emergency
  }

  function InBucket(stakes: map<Key, StakeAccount>, bucket: Bucket): StakeRecord -> nat {
    (record: StakeRecord) => if BucketOf(stakes, record) == bucket then record.lamports else 0
  }

  function Lamports(): StakeRecord -> nat {
    (record: StakeRecord) => record.lamports
  }

  function OnVote(vote: Key): ValidatorRecord -> nat {
    (validator: ValidatorRecord) => if validator.vote == vote then validator.activeBalance else 0
  }

  function Balance(): ValidatorRecord -> nat {
    (validator: ValidatorRecord) => validator.activeBalance
  }

  function Score(): ValidatorRecord -> nat {
    (validator: ValidatorRecord) => validator.score
  }

  /** What the records put in a bucket. */
  function Posted(records: seq<StakeRecord>, stakes: map<Key, StakeAccount>, bucket: Bucket): nat {
    SumBy(records, InBucket(stakes, bucket))
  }

  /** What the program's totals say is in a bucket. */
  function Book(validators: seq<ValidatorRecord>, delayed: nat, emergency: nat, bucket: Bucket): nat {
    match bucket
    case Active(vote) => SumBy(validators, OnVote(vote))
    case Delayed => delayed
    case Emergency => emergency
    case Lost => 0
  }

  ghost predicate DistinctAccounts(records: seq<StakeRecord>) {
    forall i, j :: 0 <= i < j < |records| ==> records[i].account != records[j].account
  }

  ghost predicate DistinctVotes(validators: seq<ValidatorRecord>) {
    forall i, j :: 0 <= i < j < |validators| ==> validators[i].vote != validators[j].vote
  }

  /** A record with the emergency flag is cooling down. */
  ghost predicate FlagsCool(records: seq<StakeRecord>, stakes: map<Key, StakeAccount>) {
    forall i :: 0 <= i < |records| ==> records[i].emergency == 0 || !BucketOf(stakes, records[i]).Active?
  }

  /** Every record has its own account among those the pool controls. */
  ghost predicate Accounted(records: seq<StakeRecord>, stakes: map<Key, StakeAccount>) {
    && DistinctAccounts(records)
    && (forall i :: 0 <= i < |records| ==> records[i].account in stakes)
    && FlagsCool(records, stakes)
  }

  ghost predicate Agree(records: seq<StakeRecord>, stakes: map<Key, StakeAccount>, validators: seq<ValidatorRecord>,
                        delayed: nat, emergency: nat) {
    forall bucket :: Posted(records, stakes, bucket) == Book(validators, delayed, emergency, bucket)
  }

  ghost predicate ValidatorTotals(system: ValidatorSystem) {
    && DistinctVotes(system.list)
    && SumBy(system.list, Balance()) == system.totalActive
    && SumBy(system.list, Score()) == system.totalScore
  }

  /** The stake totals fit the program's u64. */
  ghost predicate Ranged(c: Chain) {
    && c.validatorSystem.totalActive < U64_LIMIT
    && c.stakeSystem.delayedCooling < U64_LIMIT
    && c.emergencyCooling < U64_LIMIT
  }

  ghost predicate Books(c: Chain) {
    && Ranged(c)
    && Accounted(c.stakeSystem.list, c.stakes)
    && Agree(c.stakeSystem.list, c.stakes, c.validatorSystem.list, c.stakeSystem.delayedCooling, c.emergencyCooling)
    && ValidatorTotals(c.validatorSystem)
  }

  // ---------- tickets ----------

  ghost function TicketSum(tickets: map<Key, Ticket>): nat
    decreases |tickets|
  {
    if tickets == map[] then 0
    else
      var key :| key in tickets;
      tickets[key].lamports + TicketSum(tickets - {key})
  }

  ghost predicate TicketTotals(c: Chain) {
    && c.ticketBalance == TicketSum(c.tickets)
    && c.ticketCount == |c.tickets|
  }

  // ---------- real balances and parameters ----------

  ghost predicate Backed(c: Chain) {
    && c.available + c.config.rentExempt <= c.reserve
    && c.config.rentExempt <= c.solLeg
    && c.msolLeg <= c.msolMint <= c.msolSupply
    && c.lpMint <= c.liqPool.lpSupply
  }

  ghost predicate Configured(c: Chain) {
    && c.stakeSystem.minStake >= MIN_STAKE_LOWER_LIMIT
    && c.config.rewardFee <= MAX_REWARD_FEE
    && c.config.delayedFee <= MAX_DELAYED_UNSTAKE_FEE
    && c.config.withdrawFee <= MAX_WITHDRAW_STAKE_ACCOUNT_FEE
    && Validate(c.liqPool).Pass?
  }

  ghost predicate Inv(c: Chain) {
    Books(c) && TicketTotals(c) && Backed(c) && Configured(c)
  }

  // ---------- how changes to the records move lamports between buckets ----------

  /** All records except the one at `i` are in the same bucket before and after. */
  ghost predicate SameElsewhere(records: seq<StakeRecord>, before: map<Key, StakeAccount>,
                                after: map<Key, StakeAccount>, i: nat) {
    forall j :: 0 <= j < |records| && j != i ==> BucketOf(before, records[j]) == BucketOf(after, records[j])
  }

  lemma PostSet(records: seq<StakeRecord>, before: map<Key, StakeAccount>, i: nat, record: StakeRecord,
                after: map<Key, StakeAccount>, bucket: Bucket)
    requires i < |records| && SameElsewhere(records, before, after, i)
    ensures Posted(records[i := record], after, bucket) + InBucket(before, bucket)(records[i])
         == Posted(records, before, bucket) + InBucket(after, bucket)(record)
  {
    SumPoint(records, InBucket(before, bucket), records[i := record], InBucket(after, bucket), i);
  }

  lemma PostPush(records: seq<StakeRecord>, before: map<Key, StakeAccount>, record: StakeRecord,
                 after: map<Key, StakeAccount>, bucket: Bucket)
    requires SameElsewhere(records, before, after, |records|)
    ensures Posted(records + [record], after, bucket)
            == Posted(records, before, bucket) + InBucket(after, bucket)(record)
  {
    SumSame(records, InBucket(before, bucket), records, InBucket(after, bucket));
    SumPush(records, record, InBucket(after, bucket));
  }

  lemma PostRemove(records: seq<StakeRecord>, before: map<Key, StakeAccount>, i: nat, after: map<Key, StakeAccount>,
                   bucket: Bucket)
    requires i < |records| && SameElsewhere(records, before, after, i)
    ensures Posted(SwapRemove(records, i), after, bucket) + InBucket(before, bucket)(records[i])
            == Posted(records, before, bucket)
  {
    SumPoint(records, InBucket(before, bucket), records, InBucket(after, bucket), i);
    SumRemove(records, InBucket(after, bucket), i);
  }

  lemma BookSet(validators: seq<ValidatorRecord>, delayed: nat, emergency: nat, i: nat, validator: ValidatorRecord,
                delayed': nat, emergency': nat, bucket: Bucket)
    requires i < |validators| && validators[i].vote == validator.vote
    ensures var v := validators[i := validator];
            match bucket
            case Active(vote) =>
              Book(v, delayed', emergency', bucket)
                 + (if vote == validator.vote then validators[i].activeBalance else 0)
              == Book(validators, delayed, emergency, bucket)
                 + (if vote == validator.vote then validator.activeBalance else 0)
            case Delayed => Book(v, delayed', emergency', bucket) == delayed'
            case Emergency => Book(v, delayed', emergency', bucket) == emergency'
            case Lost => Book(v, delayed', emergency', bucket) == 0
  {
    if bucket.Active? {
      SumSet(validators, OnVote(bucket.vote), i, validator);
    }
  }

  /** Writing back one validator with the same vote: its change in balance and score goes to the totals. */
  lemma ValidatorSet(system: ValidatorSystem, i: nat, validator: ValidatorRecord, system': ValidatorSystem)
    requires ValidatorTotals(system) && i < |system.list| && system.list[i].vote == validator.vote
    requires system'.list == system.list[i := validator]
    requires system'.totalActive + system.list[i].activeBalance == system.totalActive + validator.activeBalance
    requires system'.totalScore + system.list[i].score == system.totalScore + validator.score
    ensures ValidatorTotals(system')
  {
    SumSet(system.list, Balance(), i, validator);
    SumSet(system.list, Score(), i, validator);
  }

  // ---------- what agreement bounds ----------

  /** A record's lamports are part of what is booked in its bucket. */
  lemma RecordBooked(c: Chain, i: nat)
    requires Books(c) && i < |c.stakeSystem.list|
    ensures var record := c.stakeSystem.list[i];
            record.lamports <= Book(c.validatorSystem.list, c.stakeSystem.delayedCooling, c.emergencyCooling,
                                    BucketOf(c.stakes, record))
  {
    var record := c.stakeSystem.list[i];
    var bucket := BucketOf(c.stakes, record);
    SumMember(c.stakeSystem.list, InBucket(c.stakes, bucket), i);
    assert Posted(c.stakeSystem.list, c.stakes, bucket) == Book(c.validatorSystem.list, c.stakeSystem.delayedCooling,
                                                                c.emergencyCooling, bucket);
  }

  /** With distinct votes, what is booked for a vote is the balance of its one record. */
  lemma {:induction false} VoteBalance(validators: seq<ValidatorRecord>, i: nat)
    requires DistinctVotes(validators) && i < |validators|
    ensures SumBy(validators, OnVote(validators[i].vote)) == validators[i].activeBalance
  {
    var n := |validators| - 1;
    if i == n {
      SumZero(validators[..n], OnVote(validators[i].vote));
    } else {
      VoteBalance(validators[..n], i);
    }
  }

  /** An active record is covered by its validator's balance and by the total. */
  lemma ActiveCovered(c: Chain, i: nat, index: nat)
    requires Books(c) && i < |c.stakeSystem.list| && index < |c.validatorSystem.list|
    requires var record := c.stakeSystem.list[i];
             BucketOf(c.stakes, record) == Active(c.validatorSystem.list[index].vote)
    ensures c.stakeSystem.list[i].lamports <= c.validatorSystem.list[index].activeBalance
    ensures c.validatorSystem.list[index].activeBalance <= c.validatorSystem.totalActive
  {
    RecordBooked(c, i);
    VoteBalance(c.validatorSystem.list, index);
    SumMember(c.validatorSystem.list, Balance(), index);
  }

  // ---------- the ways an instruction changes the books ----------

  /** The books of a chain for one bucket. */
  function Booked(c: Chain, bucket: Bucket): nat {
    Book(c.validatorSystem.list, c.stakeSystem.delayedCooling, c.emergencyCooling, bucket)
  }

  lemma AgreeAt(c: Chain, bucket: Bucket)
    requires Books(c)
    ensures Posted(c.stakeSystem.list, c.stakes, bucket) == Booked(c, bucket)
  {
  }

  /** A whole active record starts cooling down. */
  lemma CoolKeepsBooks(c: Chain, stakeIndex: nat, cooled: StakeRecord, index: nat, left: ValidatorRecord, c': Chain)
    requires Books(c) && stakeIndex < |c.stakeSystem.list| && index < |c.validatorSystem.list|
    requires cooled.account == c.stakeSystem.list[stakeIndex].account && left.vote == c.validatorSystem.list[index].vote
    requires c'.stakeSystem.list == c.stakeSystem.list[stakeIndex := cooled]
    requires c'.validatorSystem.list == c.validatorSystem.list[index := left]
    requires c'.stakes.Keys == c.stakes.Keys
    requires SameElsewhere(c.stakeSystem.list, c.stakes, c'.stakes, stakeIndex)
    requires BucketOf(c.stakes, c.stakeSystem.list[stakeIndex]) == Active(left.vote)
    requires BucketOf(c'.stakes, cooled) in {Delayed, Emergency}
    requires cooled.lamports == c.stakeSystem.list[stakeIndex].lamports
    requires left.activeBalance + cooled.lamports == c.validatorSystem.list[index].activeBalance
    requires left.score == c.validatorSystem.list[index].score
    requires c'.validatorSystem.totalActive + cooled.lamports == c.validatorSystem.totalActive
    requires c'.validatorSystem.totalScore == c.validatorSystem.totalScore
    requires c'.stakeSystem.delayedCooling == c.stakeSystem.delayedCooling + InBucket(c'.stakes, Delayed)(cooled)
    requires c'.emergencyCooling == c.emergencyCooling + InBucket(c'.stakes, Emergency)(cooled)
    requires Ranged(c')
    ensures Books(c')
  {
    forall bucket
      ensures Posted(c'.stakeSystem.list, c'.stakes, bucket) == Booked(c', bucket)
    {
      AgreeAt(c, bucket);
      PostSet(c.stakeSystem.list, c.stakes, stakeIndex, cooled, c'.stakes, bucket);
      BookSet(c.validatorSystem.list, c.stakeSystem.delayedCooling, c.emergencyCooling, index, left,
              c'.stakeSystem.delayedCooling, c'.emergencyCooling, bucket);
    }
    ValidatorSet(c.validatorSystem, index, left, c'.validatorSystem);
  }

  /** Part of an active record is split off and starts cooling down. */
  lemma SplitKeepsBooks(c: Chain, stakeIndex: nat, rest: StakeRecord, split: StakeRecord, index: nat,
                        left: ValidatorRecord, c': Chain)
    requires Books(c) && stakeIndex < |c.stakeSystem.list| && index < |c.validatorSystem.list|
    requires rest.account == c.stakeSystem.list[stakeIndex].account && left.vote == c.validatorSystem.list[index].vote
    requires rest.emergency == c.stakeSystem.list[stakeIndex].emergency
    requires c'.stakeSystem.list == c.stakeSystem.list[stakeIndex := rest] + [split]
    requires c'.validatorSystem.list == c.validatorSystem.list[index := left]
    requires split.account !in c.stakes && c'.stakes.Keys == c.stakes.Keys + {split.account}
    requires SameElsewhere(c.stakeSystem.list, c.stakes, c'.stakes, stakeIndex)
    requires BucketOf(c.stakes, c.stakeSystem.list[stakeIndex]) == BucketOf(c'.stakes, rest) == Active(left.vote)
    requires BucketOf(c'.stakes, split) in {Delayed, Emergency}
    requires rest.lamports + split.lamports == c.stakeSystem.list[stakeIndex].lamports
    requires left.activeBalance + split.lamports == c.validatorSystem.list[index].activeBalance
    requires left.score == c.validatorSystem.list[index].score
    requires c'.validatorSystem.totalActive + split.lamports == c.validatorSystem.totalActive
    requires c'.validatorSystem.totalScore == c.validatorSystem.totalScore
    requires c'.stakeSystem.delayedCooling == c.stakeSystem.delayedCooling + InBucket(c'.stakes, Delayed)(split)
    requires c'.emergencyCooling == c.emergencyCooling + InBucket(c'.stakes, Emergency)(split)
    requires Ranged(c')
    ensures Books(c')
  {
    hide SumBy, Posted, ValidatorTotals;
    var records := c.stakeSystem.list;
    forall bucket
      ensures Posted(c'.stakeSystem.list, c'.stakes, bucket) == Booked(c', bucket)
    {
      AgreeAt(c, bucket);
      PostSet(records, c.stakes, stakeIndex, rest, c'.stakes, bucket);
      PostPush(records[stakeIndex := rest], c'.stakes, split, c'.stakes, bucket);
      BookSet(c.validatorSystem.list, c.stakeSystem.delayedCooling, c.emergencyCooling, index, left,
              c'.stakeSystem.delayedCooling, c'.emergencyCooling, bucket);
    }
    ValidatorSet(c.validatorSystem, index, left, c'.validatorSystem);
  }

  /** An active record and its validator change by the same amount, up or down. */
  lemma AdjustKeepsBooks(c: Chain, stakeIndex: nat, record: StakeRecord, index: nat, validator: ValidatorRecord,
                         c': Chain)
    requires Books(c) && stakeIndex < |c.stakeSystem.list| && index < |c.validatorSystem.list|
    requires record.account == c.stakeSystem.list[stakeIndex].account
             && record.emergency == c.stakeSystem.list[stakeIndex].emergency
             && validator.vote == c.validatorSystem.list[index].vote
    requires c'.stakeSystem.list == c.stakeSystem.list[stakeIndex := record]
    requires c'.validatorSystem.list == c.validatorSystem.list[index := validator]
    requires c'.stakes.Keys == c.stakes.Keys
    requires SameElsewhere(c.stakeSystem.list, c.stakes, c'.stakes, stakeIndex)
    requires BucketOf(c.stakes, c.stakeSystem.list[stakeIndex]) == BucketOf(c'.stakes, record) == Active(validator.vote)
    requires validator.activeBalance + c.stakeSystem.list[stakeIndex].lamports
             == c.validatorSystem.list[index].activeBalance + record.lamports
    requires validator.score == c.validatorSystem.list[index].score
    requires c'.validatorSystem.totalActive + c.stakeSystem.list[stakeIndex].lamports
             == c.validatorSystem.totalActive + record.lamports
    requires c'.validatorSystem.totalScore == c.validatorSystem.totalScore
    requires c'.stakeSystem.delayedCooling == c.stakeSystem.delayedCooling && c'.emergencyCooling == c.emergencyCooling
    requires Ranged(c')
    ensures Books(c')
  {
    forall bucket
      ensures Posted(c'.stakeSystem.list, c'.stakes, bucket) == Booked(c', bucket)
    {
      AgreeAt(c, bucket);
      PostSet(c.stakeSystem.list, c.stakes, stakeIndex, record, c'.stakes, bucket);
      BookSet(c.validatorSystem.list, c.stakeSystem.delayedCooling, c.emergencyCooling, index, validator,
              c'.stakeSystem.delayedCooling, c'.emergencyCooling, bucket);
    }
    ValidatorSet(c.validatorSystem, index, validator, c'.validatorSystem);
  }

  /** A new active record is added to a validator. */
  lemma AddKeepsBooks(c: Chain, record: StakeRecord, index: nat, validator: ValidatorRecord, c': Chain)
    requires Books(c) && index < |c.validatorSystem.list|
    requires record.account !in c.stakes && record.emergency == 0
    requires validator.vote == c.validatorSystem.list[index].vote
    requires c'.stakeSystem.list == c.stakeSystem.list + [record]
    requires c'.validatorSystem.list == c.validatorSystem.list[index := validator]
    requires c'.stakes.Keys == c.stakes.Keys + {record.account}
    requires SameElsewhere(c.stakeSystem.list, c.stakes, c'.stakes, |c.stakeSystem.list|)
    requires BucketOf(c'.stakes, record) == Active(validator.vote)
    requires validator.activeBalance == c.validatorSystem.list[index].activeBalance + record.lamports
    requires validator.score == c.validatorSystem.list[index].score
    requires c'.validatorSystem.totalActive == c.validatorSystem.totalActive + record.lamports
    requires c'.validatorSystem.totalScore == c.validatorSystem.totalScore
    requires c'.stakeSystem.delayedCooling == c.stakeSystem.delayedCooling && c'.emergencyCooling == c.emergencyCooling
    requires Ranged(c')
    ensures Books(c')
  {
    forall bucket
      ensures Posted(c'.stakeSystem.list, c'.stakes, bucket) == Booked(c', bucket)
    {
      AgreeAt(c, bucket);
      PostPush(c.stakeSystem.list, c.stakes, record, c'.stakes, bucket);
      BookSet(c.validatorSystem.list, c.stakeSystem.delayedCooling, c.emergencyCooling, index, validator,
              c'.stakeSystem.delayedCooling, c'.emergencyCooling, bucket);
    }
    ValidatorSet(c.validatorSystem, index, validator, c'.validatorSystem);
  }

  /** A cooling record leaves the list and its bucket. */
  lemma DropKeepsBooks(c: Chain, stakeIndex: nat, c': Chain)
    requires Books(c) && stakeIndex < |c.stakeSystem.list|
    requires BucketOf(c.stakes, c.stakeSystem.list[stakeIndex]) in {Delayed, Emergency}
    requires c'.stakeSystem.list == SwapRemove(c.stakeSystem.list, stakeIndex)
    requires c'.stakes.Keys == c.stakes.Keys - {c.stakeSystem.list[stakeIndex].account}
    requires SameElsewhere(c.stakeSystem.list, c.stakes, c'.stakes, stakeIndex)
    requires c'.validatorSystem == c.validatorSystem
    requires c'.stakeSystem.delayedCooling + InBucket(c.stakes, Delayed)(c.stakeSystem.list[stakeIndex])
             == c.stakeSystem.delayedCooling
    requires c'.emergencyCooling + InBucket(c.stakes, Emergency)(c.stakeSystem.list[stakeIndex]) == c.emergencyCooling
    requires Ranged(c')
    ensures Books(c')
  {
    hide SumBy, Posted;
    forall bucket
      ensures Posted(c'.stakeSystem.list, c'.stakes, bucket) == Booked(c', bucket)
    {
      AgreeAt(c, bucket);
      PostRemove(c.stakeSystem.list, c.stakes, stakeIndex, c'.stakes, bucket);
    }
  }

  /** Two active records of one validator become one, which may gain some rent. */
  lemma MergeKeepsBooks(c: Chain, destIndex: nat, merged: StakeRecord, sourceIndex: nat, index: nat,
                        validator: ValidatorRecord,
                        extra: nat, c': Chain)
    requires Books(c) && destIndex < |c.stakeSystem.list| && sourceIndex < |c.stakeSystem.list|
             && destIndex != sourceIndex
    requires index < |c.validatorSystem.list| && validator.vote == c.validatorSystem.list[index].vote
    requires merged.account == c.stakeSystem.list[destIndex].account
             && merged.emergency == c.stakeSystem.list[destIndex].emergency
    requires c'.stakeSystem.list == SwapRemove(c.stakeSystem.list[destIndex := merged], sourceIndex)
    requires c'.validatorSystem.list == c.validatorSystem.list[index := validator]
    requires c'.stakes.Keys == c.stakes.Keys - {c.stakeSystem.list[sourceIndex].account}
    requires SameElsewhere(c.stakeSystem.list[destIndex := merged], c.stakes, c'.stakes, sourceIndex)
    requires BucketOf(c.stakes, c.stakeSystem.list[destIndex]) == BucketOf(c.stakes, c.stakeSystem.list[sourceIndex])
          == BucketOf(c.stakes, merged) == Active(validator.vote)
    requires merged.lamports == c.stakeSystem.list[destIndex].lamports + c.stakeSystem.list[sourceIndex].lamports
             + extra
    requires validator.activeBalance == c.validatorSystem.list[index].activeBalance + extra
    requires validator.score == c.validatorSystem.list[index].score
    requires c'.validatorSystem.totalActive == c.validatorSystem.totalActive + extra
    requires c'.validatorSystem.totalScore == c.validatorSystem.totalScore
    requires c'.stakeSystem.delayedCooling == c.stakeSystem.delayedCooling && c'.emergencyCooling == c.emergencyCooling
    requires Ranged(c')
    ensures Books(c')
  {
    hide SumBy, Posted, ValidatorTotals;
    forall bucket
      ensures Posted(c'.stakeSystem.list, c'.stakes, bucket) == Booked(c', bucket)
    {
      AgreeAt(c, bucket);
      PostSet(c.stakeSystem.list, c.stakes, destIndex, merged, c.stakes, bucket);
      PostRemove(c.stakeSystem.list[destIndex := merged], c.stakes, sourceIndex, c'.stakes, bucket);
      BookSet(c.validatorSystem.list, c.stakeSystem.delayedCooling, c.emergencyCooling, index, validator,
              c'.stakeSystem.delayedCooling, c'.emergencyCooling, bucket);
    }
    ValidatorSet(c.validatorSystem, index, validator, c'.validatorSystem);
  }

  /** Writing back two different validators. */
  lemma BookSetTwo(validators: seq<ValidatorRecord>, delayed: nat, emergency: nat, i: nat, source: ValidatorRecord,
                   j: nat, dest: ValidatorRecord, bucket: Bucket)
    requires i < |validators| && j < |validators| && i != j
    requires validators[i].vote == source.vote && validators[j].vote == dest.vote && source.vote != dest.vote
    ensures Book(validators[i := source][j := dest], delayed, emergency, bucket)
            + (if bucket == Active(source.vote) then validators[i].activeBalance else 0)
            + (if bucket == Active(dest.vote) then validators[j].activeBalance else 0)
         == Book(validators, delayed, emergency, bucket)
            + (if bucket == Active(source.vote) then source.activeBalance else 0)
            + (if bucket == Active(dest.vote) then dest.activeBalance else 0)
  {
    BookSet(validators, delayed, emergency, i, source, delayed, emergency, bucket);
    BookSet(validators[i := source], delayed, emergency, j, dest, delayed, emergency, bucket);
  }

  /** Stake moves from one validator to another: the record keeps the rest, records without lamports
      may appear, and a new active record takes what moved. */
  lemma MoveKeepsBooks(c: Chain, stakeIndex: nat, rest: StakeRecord, empty: seq<StakeRecord>, moved: StakeRecord,
                       i: nat, source: ValidatorRecord, j: nat, dest: ValidatorRecord, c': Chain)
    requires Books(c) && stakeIndex < |c.stakeSystem.list|
    requires i < |c.validatorSystem.list| && j < |c.validatorSystem.list| && i != j
    requires rest.account == c.stakeSystem.list[stakeIndex].account
             && rest.emergency in {0, c.stakeSystem.list[stakeIndex].emergency} && moved.emergency == 0
    requires source.vote == c.validatorSystem.list[i].vote && dest.vote == c.validatorSystem.list[j].vote
    requires |empty| <= 1
    requires forall k :: 0 <= k < |empty| ==>
               empty[k].lamports == 0 && empty[k].emergency == 0
               && empty[k].account in c'.stakes.Keys - c.stakes.Keys - {moved.account}
    requires moved.account !in c.stakes
    requires c'.stakeSystem.list == c.stakeSystem.list[stakeIndex := rest] + empty + [moved]
    requires c'.validatorSystem.list == c.validatorSystem.list[i := source][j := dest]
    requires c.stakes.Keys + {moved.account} <= c'.stakes.Keys
    requires SameElsewhere(c.stakeSystem.list, c.stakes, c'.stakes, stakeIndex)
    requires BucketOf(c.stakes, c.stakeSystem.list[stakeIndex]) == Active(source.vote)
    requires rest.lamports == 0 || BucketOf(c'.stakes, rest) == Active(source.vote)
    requires BucketOf(c'.stakes, moved) == Active(dest.vote)
    requires rest.lamports + moved.lamports == c.stakeSystem.list[stakeIndex].lamports
    requires source.activeBalance + moved.lamports == c.validatorSystem.list[i].activeBalance
    requires dest.activeBalance == c.validatorSystem.list[j].activeBalance + moved.lamports
    requires source.score == c.validatorSystem.list[i].score && dest.score == c.validatorSystem.list[j].score
    requires c'.validatorSystem.totalActive == c.validatorSystem.totalActive
    requires c'.validatorSystem.totalScore == c.validatorSystem.totalScore
    requires c'.stakeSystem.delayedCooling == c.stakeSystem.delayedCooling && c'.emergencyCooling == c.emergencyCooling
    requires Ranged(c')
    ensures Books(c')
  {
    hide SumBy, Posted;
    var records := c.stakeSystem.list[stakeIndex := rest];
    assert source.vote != dest.vote;
    forall bucket
      ensures Posted(c'.stakeSystem.list, c'.stakes, bucket) == Booked(c', bucket)
    {
      AgreeAt(c, bucket);
      PostSet(c.stakeSystem.list, c.stakes, stakeIndex, rest, c'.stakes, bucket);
      if |empty| == 1 {
        assert empty == [empty[0]];
        PostPush(records, c'.stakes, empty[0], c'.stakes, bucket);
      } else {
        assert records + empty == records;
      }
      PostPush(records + empty, c'.stakes, moved, c'.stakes, bucket);
      BookSetTwo(c.validatorSystem.list, c.stakeSystem.delayedCooling, c.emergencyCooling, i, source, j, dest, bucket);
    }
    MoveKeepsTotals(c.validatorSystem, i, source, j, dest, c'.validatorSystem);
  }

  lemma MoveKeepsTotals(system: ValidatorSystem, i: nat, source: ValidatorRecord, j: nat, dest: ValidatorRecord,
                        system': ValidatorSystem)
    requires ValidatorTotals(system)
    requires i < |system.list| && j < |system.list| && i != j
    requires source.vote == system.list[i].vote && dest.vote == system.list[j].vote
    requires source.score == system.list[i].score && dest.score == system.list[j].score
    requires source.activeBalance + dest.activeBalance == system.list[i].activeBalance + system.list[j].activeBalance
    requires system'.list == system.list[i := source][j := dest]
    requires system'.totalActive == system.totalActive && system'.totalScore == system.totalScore
    ensures ValidatorTotals(system')
  {
    SumSet(system.list, Balance(), i, source);
    SumSet(system.list, Score(), i, source);
    SumSet(system.list[i := source], Balance(), j, dest);
    SumSet(system.list[i := source], Score(), j, dest);
  }
}
