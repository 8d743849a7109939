/** Once nothing cools down and nothing is left to unstake, the reserve pays every open ticket, in
    whatever order they are claimed. */
module Settlement {
  import opened Records
  import opened State
  import opened Ledger
  import opened Machine
  import opened Invariants
  import opened Reserve
  import opened UserBooks

  /** The virtual reserve balance covers the open tickets. */
  predicate Covered(c: Chain) {
    c.ticketBalance <= c.available
  }

  /** With aligned balances and nothing cooling down, that is the same as having nothing to unstake. */
  lemma CoveredExactly(c: Chain)
    requires Aligned(c) && TotalCooling(c) == 0
    ensures Covered(c) <==> 0 <= StakeDelta(c)
  {
  }

  /** A ticket whose beneficiary claims it when it is due: from its epoch on, a second after that began. */
  ghost predicate Due(c: Chain, claim: Event) {
    && claim.action.Claim? && claim.action.ticketKey in c.tickets
    && claim.action.receiver == c.tickets[claim.action.ticketKey].beneficiary
    && var ticket := c.tickets[claim.action.ticketKey];
       && 0 < ticket.lamports && ticket.createdEpoch <= claim.now.epoch
       && (ticket.createdEpoch == claim.now.epoch ==> 1 <= claim.now.age)
  }

  /** A due claim succeeds exactly when the virtual balance covers that ticket, and takes as much out of the
      balance as out of the open tickets. */
  lemma ClaimSettles(c: Chain, claim: Event)
    requires Inv(c) && !c.paused && Due(c, claim)
    ensures Step(c, claim).Ok? <==> c.tickets[claim.action.ticketKey].lamports <= c.available
    ensures c.tickets[claim.action.ticketKey].lamports <= c.ticketBalance
    ensures Step(c, claim).Ok? ==>
              var c' := Step(c, claim).value;
              && !c'.paused && c'.tickets == c.tickets - {claim.action.ticketKey}
              && c'.available - c'.ticketBalance == c.available - c.ticketBalance
  {
    ClaimRunsShortExactly(c, claim.now, claim.action.ticketKey, claim.action.receiver);
    TicketSumRemove(c.tickets, claim.action.ticketKey);
  }

  /** Due claims of different tickets. */
  ghost predicate DueClaims(c: Chain, claims: seq<Event>) {
    && (forall i :: 0 <= i < |claims| ==> Due(c, claims[i]))
    && (forall i, j :: 0 <= i < j < |claims| ==> claims[i].action.ticketKey != claims[j].action.ticketKey)
  }

  ghost function Claimed(claims: seq<Event>): set<Key>
    requires forall i :: 0 <= i < |claims| ==> claims[i].action.Claim?
  {
    set i | 0 <= i < |claims| :: claims[i].action.ticketKey
  }

  /** The claim at `i` is paid when its turn comes. */
  ghost predicate PaidInTurn(c: Chain, claims: seq<Event>, i: nat)
    requires i < |claims|
  {
    Step(Run(c, claims[..i]), claims[i]).Ok?
  }

  ghost predicate AllPaid(c: Chain, claims: seq<Event>) {
    forall i :: 0 <= i < |claims| ==> PaidInTurn(c, claims, i)
  }

  /** What claims that were all paid leave behind. */
  ghost predicate Settles(c: Chain, claims: seq<Event>, c': Chain)
    requires DueClaims(c, claims)
  {
    && !c'.paused && c'.tickets == c.tickets - Claimed(claims)
    && c'.available - c'.ticketBalance == c.available - c.ticketBalance
  }

  lemma LastClaimed(c: Chain, claims: seq<Event>)
    requires claims != [] && DueClaims(c, claims)
    ensures DueClaims(c, claims[..|claims| - 1])
    ensures Claimed(claims) == Claimed(claims[..|claims| - 1]) + {claims[|claims| - 1].action.ticketKey}
    ensures claims[|claims| - 1].action.ticketKey !in Claimed(claims[..|claims| - 1])
  {
    var most, last := claims[..|claims| - 1], claims[|claims| - 1];
    forall key | key in Claimed(claims)
      ensures key in Claimed(most) + {last.action.ticketKey}
    {
      var i :| 0 <= i < |claims| && claims[i].action.ticketKey == key;
      if i < |most| {
        assert most[i] == claims[i];
      }
    }
    forall key | key in Claimed(most)
      ensures key in Claimed(claims)
    {
      var i :| 0 <= i < |most| && most[i].action.ticketKey == key;
      assert claims[i] == most[i];
    }
  }

  lemma PaidEarlier(c: Chain, claims: seq<Event>)
    requires claims != []
    ensures AllPaid(c, claims) <==>
              AllPaid(c, claims[..|claims| - 1]) && Step(Run(c, claims[..|claims| - 1]), claims[|claims| - 1]).Ok?
  {
    var n := |claims| - 1;
    assert forall i :: 0 <= i < n ==> claims[..n][..i] == claims[..i] && claims[..n][i] == claims[i];
    assert forall i :: 0 <= i < n ==> PaidInTurn(c, claims, i) == PaidInTurn(c, claims[..n], i);
    assert PaidInTurn(c, claims, n) == Step(Run(c, claims[..n]), claims[n]).Ok?;
  }

  lemma SettlesOn(c: Chain, claims: seq<Event>, before: Chain, after: Chain)
    requires claims != [] && DueClaims(c, claims) && DueClaims(c, claims[..|claims| - 1])
    requires Settles(c, claims[..|claims| - 1], before)
    requires !after.paused && after.tickets == before.tickets - {claims[|claims| - 1].action.ticketKey}
    requires after.available - after.ticketBalance == before.available - before.ticketBalance
    ensures Settles(c, claims, after)
  {
    LastClaimed(c, claims);
  }

  lemma DueLater(c: Chain, claims: seq<Event>, before: Chain)
    requires claims != [] && DueClaims(c, claims) && DueClaims(c, claims[..|claims| - 1])
    requires Settles(c, claims[..|claims| - 1], before)
    ensures Due(before, claims[|claims| - 1])
  {
    LastClaimed(c, claims);
  }

  lemma {:induction false} PaidClaimsSettle(c: Chain, claims: seq<Event>)
    requires Inv(c) && !c.paused && DueClaims(c, claims) && AllPaid(c, claims)
    ensures Settles(c, claims, Run(c, claims))
  {
    hide Inv, Step, Due;
    if claims != [] {
      var most, last := claims[..|claims| - 1], claims[|claims| - 1];
      LastClaimed(c, claims);
      PaidEarlier(c, claims);
      PaidClaimsSettle(c, most);
      RunKeepsInv(c, most);
      DueLater(c, claims, Run(c, most));
      ClaimSettles(Run(c, most), last);
      SettlesOn(c, claims, Run(c, most), Run(c, claims));
    }
  }

  /** While the open tickets are covered, any due claims of different tickets are all paid, in any order. */
  lemma {:induction false} CoveredClaimsArePaid(c: Chain, claims: seq<Event>)
    requires Inv(c) && !c.paused && Covered(c) && DueClaims(c, claims)
    ensures AllPaid(c, claims)
  {
    if claims != [] {
      var most, last := claims[..|claims| - 1], claims[|claims| - 1];
      LastClaimed(c, claims);
      CoveredClaimsArePaid(c, most);
      PaidClaimsSettle(c, most);
      RunKeepsInv(c, most);
      DueLater(c, claims, Run(c, most));
      ClaimSettles(Run(c, most), last);
      PaidEarlier(c, claims);
    }
  }

  /** Due claims of all open tickets are all paid exactly when the virtual balance covers them together, and
      then no ticket is left and the balance has fallen by just what was owed. */
  lemma EveryTicketPaidExactly(c: Chain, claims: seq<Event>)
    requires Inv(c) && !c.paused && DueClaims(c, claims) && Claimed(claims) == c.tickets.Keys
    ensures AllPaid(c, claims) <==> Covered(c)
    ensures AllPaid(c, claims) ==>
              var c' := Run(c, claims);
              c'.tickets == map[] && c'.ticketBalance == 0 && c'.available == c.available - c.ticketBalance
  {
    if AllPaid(c, claims) {
      PaidClaimsSettle(c, claims);
      RunKeepsInv(c, claims);
    }
    if Covered(c) {
      CoveredClaimsArePaid(c, claims);
    }
  }
}
