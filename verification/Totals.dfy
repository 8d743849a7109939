/** What the agreement of the books means for the program's totals: every lamport of every record is
    counted in exactly one of them. */
module Totals {
  import opened Sums
  import opened Records
  import opened State
  import opened Ledger
  import opened Invariants

  /** A record that is active on none of the first k validators and not cooling down either. */
  ghost predicate Uncounted(stakes: map<Key, StakeAccount>, validators: seq<ValidatorRecord>, k: nat,
                            record: StakeRecord)
    requires k <= |validators|
  {
    && BucketOf(stakes, record) != Delayed && BucketOf(stakes, record) != Emergency
    && forall i :: 0 <= i < k ==> BucketOf(stakes, record) != Active(validators[i].vote)
  }

  ghost function UncountedLamports(stakes: map<Key, StakeAccount>, validators: seq<ValidatorRecord>,
                                   k: nat): StakeRecord -> nat
    requires k <= |validators|
  {
    (record: StakeRecord) => if Uncounted(stakes, validators, k, record) then record.lamports else 0
  }

  lemma {:induction false} SumAdd<T>(s: seq<T>, f: T -> nat, g: T -> nat, h: T -> nat)
    requires forall j :: 0 <= j < |s| ==> f(s[j]) + g(s[j]) == h(s[j])
    ensures SumBy(s, f) + SumBy(s, g) == SumBy(s, h)
  {
    if s != [] {
      SumAdd(s[..|s| - 1], f, g, h);
    }
  }

  /** A listed validator's balance is what its active records hold. */
  lemma ActiveIsPosted(c: Chain, i: nat)
    requires Books(c) && i < |c.validatorSystem.list|
    ensures Posted(c.stakeSystem.list, c.stakes, Active(c.validatorSystem.list[i].vote))
            == c.validatorSystem.list[i].activeBalance
  {
    AgreeAt(c, Active(c.validatorSystem.list[i].vote));
    VoteBalance(c.validatorSystem.list, i);
  }

  /** Counting the cooling records and those of the first k validators leaves the uncounted ones. */
  lemma {:induction false} CountedSoFar(c: Chain, k: nat)
    requires Books(c) && k <= |c.validatorSystem.list|
    ensures SumBy(c.stakeSystem.list, Lamports())
         == TotalCooling(c) + SumBy(c.validatorSystem.list[..k], Balance())
            + SumBy(c.stakeSystem.list, UncountedLamports(c.stakes, c.validatorSystem.list, k))
  {
    hide Agree;
    var records, validators := c.stakeSystem.list, c.validatorSystem.list;
    if k == 0 {
      AgreeAt(c, Delayed);
      AgreeAt(c, Emergency);
      var cooling := (record: StakeRecord) =>
        InBucket(c.stakes, Delayed)(record) + InBucket(c.stakes, Emergency)(record);
      SumAdd(records, InBucket(c.stakes, Delayed), InBucket(c.stakes, Emergency), cooling);
      SumAdd(records, cooling, UncountedLamports(c.stakes, validators, 0), Lamports());
    } else {
      CountedSoFar(c, k - 1);
      ActiveIsPosted(c, k - 1);
      SumAdd(records, InBucket(c.stakes, Active(validators[k - 1].vote)), UncountedLamports(c.stakes, validators, k),
             UncountedLamports(c.stakes, validators, k - 1));
      assert validators[..k] == validators[..k - 1] + [validators[k - 1]];
      SumPush(validators[..k - 1], validators[k - 1], Balance());
    }
  }

  /** Records of no listed validator hold nothing. */
  lemma NothingUncounted(c: Chain)
    requires Books(c)
    ensures SumBy(c.stakeSystem.list, UncountedLamports(c.stakes, c.validatorSystem.list, |c.validatorSystem.list|))
            == 0
  {
    var records, validators := c.stakeSystem.list, c.validatorSystem.list;
    var weight := UncountedLamports(c.stakes, validators, |validators|);
    forall j | 0 <= j < |records|
      ensures weight(records[j]) == 0
    {
      if Uncounted(c.stakes, validators, |validators|, records[j]) {
        RecordBooked(c, j);
        var bucket := BucketOf(c.stakes, records[j]);
        if bucket.Active? {
          SumZero(validators, OnVote(bucket.vote));
        }
      }
    }
    SumZero(records, weight);
  }

  /** In every reachable state each validator's active balance is the sum of its non-deactivating
      records, the two cooling totals are the sums over the deactivating records with and without the
      emergency flag, and all records together are the active and cooling totals. */
  lemma LedgerAgreement(c: Chain)
    requires Reachable(c)
    ensures forall i :: 0 <= i < |c.validatorSystem.list| ==>
              c.validatorSystem.list[i].activeBalance
              == Posted(c.stakeSystem.list, c.stakes, Active(c.validatorSystem.list[i].vote))
    ensures SumBy(c.validatorSystem.list, Balance()) == c.validatorSystem.totalActive
    ensures SumBy(c.validatorSystem.list, Score()) == c.validatorSystem.totalScore
    ensures c.stakeSystem.delayedCooling == Posted(c.stakeSystem.list, c.stakes, Delayed)
    ensures c.emergencyCooling == Posted(c.stakeSystem.list, c.stakes, Emergency)
    ensures SumBy(c.stakeSystem.list, Lamports()) + c.available == Control(c)
  {
    ReachableInv(c);
    forall i | 0 <= i < |c.validatorSystem.list|
      ensures c.validatorSystem.list[i].activeBalance == Posted(c.stakeSystem.list, c.stakes,
                                                                Active(c.validatorSystem.list[i].vote))
    {
      ActiveIsPosted(c, i);
    }
    AgreeAt(c, Delayed);
    AgreeAt(c, Emergency);
    CountedSoFar(c, |c.validatorSystem.list|);
    assert c.validatorSystem.list[..|c.validatorSystem.list|] == c.validatorSystem.list;
    NothingUncounted(c);
  }
}
