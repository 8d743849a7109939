/** What flows through tickets and through the per-epoch move cap over whole runs. */
module Flows {
  import opened Results
  import opened Calc
  import opened Records
  import opened State
  import opened Ledger
  import opened Machine
  import Cranks
  import Users
  import opened CrankBooks
  import opened UpdateBooks
  import opened Invariants
  import opened Reserve

  // ---------- tickets ----------

  function Open(c: Chain, key: Key): nat {
    if key in c.tickets then c.tickets[key].lamports else 0
  }

  /** What a step orders for a ticket, and what it pays for it. */
  function Ordered(c: Chain, e: Event, key: Key): nat {
    if e.action.OrderUnstake? && e.action.ticketKey == key && Step(c, e).Ok? then Open(Step(c, e).value, key) else 0
  }

  function Paid(c: Chain, e: Event, key: Key): nat {
    if e.action.Claim? && e.action.ticketKey == key && Step(c, e).Ok? then SatSub(c.reserve, Step(c, e).value.reserve)
      else 0
  }

  function OrderedIn(c: Chain, events: seq<Event>, key: Key): nat {
    if events == [] then 0
    else OrderedIn(c, events[..|events| - 1], key) + Ordered(Run(c, events[..|events| - 1]), events[|events| - 1], key)
  }

  function PaidIn(c: Chain, events: seq<Event>, key: Key): nat {
    if events == [] then 0
    else PaidIn(c, events[..|events| - 1], key) + Paid(Run(c, events[..|events| - 1]), events[|events| - 1], key)
  }

  /** A claim pays exactly the ticket's lamports to its beneficiary, from both reserve balances, and
      closes the ticket. */
  lemma ClaimPaysInFull(c: Chain, now: Clock, ticketKey: Key, receiver: Key)
    requires Users.Claim(c, now, ticketKey, receiver).Ok?
    ensures ticketKey in c.tickets && c.tickets[ticketKey].beneficiary == receiver
            && now.epoch >= c.tickets[ticketKey].createdEpoch
    ensures var c' := Users.Claim(c, now, ticketKey, receiver).value;
            var lamports := c.tickets[ticketKey].lamports;
            && 0 < lamports && c'.tickets == c.tickets - {ticketKey}
            && c'.reserve + lamports == c.reserve && c'.available + lamports == c.available
               && c.config.rentExempt <= c'.reserve
  {
  }

  lemma WithdrawKeepsTickets(c: Chain, now: Clock, a: Action)
    requires a.WithdrawStakeAccount?
    ensures UserStep(c, now, a).Ok? ==> UserStep(c, now, a).value.tickets == c.tickets
  {
    hide Users.WithdrawStakeAccount;
    if UserStep(c, now, a).Ok? {
      WithdrawIsHandOut(c, a.stakeIndex, a.index, a.msol, a.funds, a.key, a.splitKey, a.rent, a.ready);
    }
  }

  lemma UserStepKeepsTickets(c: Chain, now: Clock, a: Action)
    requires IsUser(a) && !a.OrderUnstake? && !a.Claim?
    ensures UserStep(c, now, a).Ok? ==> UserStep(c, now, a).value.tickets == c.tickets
  {
    hide Users.WithdrawStakeAccount;
    if a.WithdrawStakeAccount? {
      WithdrawKeepsTickets(c, now, a);
    }
  }

  lemma PoolStepKeepsTickets(c: Chain, a: Action)
    requires IsPool(a)
    ensures PoolStep(c, a).Ok? ==> PoolStep(c, a).value.tickets == c.tickets
  {
  }

  lemma AdminStepKeepsTickets(c: Chain, a: Action)
    requires IsAdmin(a)
    ensures AdminStep(c, a).Ok? ==> AdminStep(c, a).value.tickets == c.tickets
  {
  }

  lemma OutsideStepKeepsTickets(c: Chain, a: Action)
    requires Outside(a)
    ensures OutsideStep(c, a).Ok? ==> OutsideStep(c, a).value.tickets == c.tickets
  {
  }

  lemma UpkeepStepKeepsTickets(c: Chain, now: Clock, a: Action)
    requires Inv(c) && (IsUpdate(a) || a.MergeStakes?)
    ensures UpkeepStep(c, now, a).Ok? ==> UpkeepStep(c, now, a).value.tickets == c.tickets
  {
    match a
    case UpdateActive(stakeIndex, index, key, ready) => UpdateActiveIsSound(c, now, stakeIndex, index, key, ready);
    case UpdateDeactivated(stakeIndex, key, ready) => UpdateDeactivatedIsSound(c, stakeIndex, key, ready);
    case MergeStakes(destIndex, sourceIndex, index, destKey, sourceKey, extra) =>
      MergeStakesIsSound(c, destIndex, sourceIndex, index, destKey, sourceKey, extra);
  }

  /** Only orders and claims touch tickets. */
  lemma OtherStepKeepsTickets(c: Chain, e: Event)
    requires Inv(c) && !e.action.OrderUnstake? && !e.action.Claim?
    ensures Exec(c, e).tickets == c.tickets
  {
    hide Inv, OutsideStep, UserStep, PoolStep, RebalanceStep, AdminStep, UpkeepStep;
    var a := e.action;
    if IsUser(a) {
      UserStepKeepsTickets(c, e.now, a);
    } else if IsPool(a) {
      PoolStepKeepsTickets(c, a);
    } else if IsRebalance(a) {
      RebalanceConserves(c, e.now, a);
    } else if IsAdmin(a) {
      AdminStepKeepsTickets(c, a);
    } else if Outside(a) {
      OutsideStepKeepsTickets(c, a);
    } else {
      UpkeepStepKeepsTickets(c, e.now, a);
    }
  }

  lemma StepConservesTicket(c: Chain, e: Event, key: Key)
    requires Inv(c)
    ensures Paid(c, e, key) + Open(Exec(c, e), key) == Ordered(c, e, key) + Open(c, key)
  {
    hide Inv, OutsideStep, PoolStep, RebalanceStep, AdminStep, UpkeepStep;
    if e.action.Claim? {
      if Step(c, e).Ok? {
        ClaimPaysInFull(c, e.now, e.action.ticketKey, e.action.receiver);
      }
    } else if !e.action.OrderUnstake? {
      OtherStepKeepsTickets(c, e);
    }
  }

  /** Over any run, for every ticket account: what is paid for it and what is still open is what was
      ordered for it and was open before. So no ticket is paid twice, in part, or for another. */
  lemma {:induction false} RunConservesTicket(c: Chain, events: seq<Event>, key: Key)
    requires Inv(c)
    ensures PaidIn(c, events, key) + Open(Run(c, events), key) == OrderedIn(c, events, key) + Open(c, key)
  {
    if events != [] {
      var most := events[..|events| - 1];
      RunConservesTicket(c, most, key);
      RunKeepsInv(c, most);
      StepConservesTicket(Run(c, most), events[|events| - 1], key);
    }
  }

  // ---------- the reserve ----------

  /** In every reachable state the real reserve covers the virtual one and the rent. An update first
      raises the virtual balance to the real one, never lowering it, and leaves both exactly aligned. */
  lemma ReserveIsBacked(c: Chain, e: Event)
    requires Reachable(c)
    ensures c.available + c.config.rentExempt <= c.reserve
    ensures c.available <= Cranks.Begin(c).available == c.reserve - c.config.rentExempt
    ensures IsUpdate(e.action) && Step(c, e).Ok? ==>
              Step(c, e).value.available + Step(c, e).value.config.rentExempt == Step(c, e).value.reserve
  {
    hide Step, Reachable, Books, TicketTotals, Configured, Cranks.UpdateActive;
    ReachableInv(c);
    if IsUpdate(e.action) && Step(c, e).Ok? {
      UpdateAligns(c, e);
    }
  }
}
