/** A deposit followed at once by an unstake order of all the mSOL received never profits. */
module RoundTrips {
  import opened Results
  import opened Calc
  import opened Records
  import opened State
  import opened Ledger
  import Users
  import opened UserBooks
  import opened Price

  /** mSOL held outside the pool's leg. */
  function Held(c: Chain): int {
    c.msolMint - c.msolLeg
  }

  /** The depositor gets exactly what was ordered, partly from the leg and partly minted. */
  lemma DepositDelivers(c: Chain, lamports: nat, funds: nat)
    requires Backed(c) && Users.Deposit(c, lamports, funds).Ok?
    ensures Users.DepositOrder(c, lamports).Ok?
    ensures Held(Users.Deposit(c, lamports, funds).value) - Held(c) == Users.DepositOrder(c, lamports).value.bought
  {
    DepositEffect(c, lamports, funds);
  }

  // ---------- the arithmetic of the round trip ----------

  lemma BackFromMint(v: nat, s: nat, d: nat, b: nat)
    requires b * v <= d * s
    ensures b * (v + d) <= d * (s + b)
  {
    assert b * (v + d) == b * v + b * d;
    assert d * (s + b) == d * s + d * b;
  }

  /** With u = v - paid - 1: what is left of each share's value after the sale, a lamport aside. */
  lemma LeftPerShare(v: nat, s: nat, d: nat, b: nat, rest: nat, u: int)
    requires 0 < s && u * s < v * rest && b * v <= d * s
    ensures b * u <= d * rest && (rest == 0 ==> u < 0)
  {
    MulMono(u * s, v * rest, b);
    MulMono(b * v, d * s, rest);
    MulRotate(u, s, b);
    MulRotate(v, rest, b);
    MulSwap(d, s, rest);
    CancelFactor(b * u, d * rest, s);
    if rest == 0 {
      CancelStrict(u, 0, s);
    }
  }

  /** The pool sells k of the b shares for their floored worth; the floor is worth less than a lamport. */
  lemma BackFromSwap(v: nat, s: nat, d: nat, b: nat, k: nat, paid: nat)
    requires 0 < s && 0 < k < b && k <= s && paid <= d
    requires b * v <= d * s && k * v < paid * s + s
    ensures b * (v + d - paid) < (d + 1) * (s + b - k)
  {
    var rest, u := s - k, v - paid - 1;
    assert u * s == v * s - paid * s - s;
    assert v * rest == v * s - k * v;
    LeftPerShare(v, s, d, b, rest, u);
    assert b * (v + d - paid) == b * u + b * d + b;
    assert (d + 1) * (s + b - k) == d * rest + rest + d * b + b;
    if rest == 0 {
      ProductSign(u, b);
      assert u * b == b * u;
    }
  }

  /** What the shares are worth after the deposit, when V > 0 before it. */
  lemma WorthAtMost(c: Chain, lamports: nat, v': nat, s': nat, order: Users.Order)
    requires Users.DepositOrder(c, lamports) == Ok(order)
    requires 0 < c.msolSupply && c.msolLeg <= c.msolSupply && 0 < Virtual(c)
    requires order.solSwapped <= lamports && order.swapped <= order.bought && order.swapped <= c.msolLeg
    requires v' == Virtual(c) + lamports - order.solSwapped
    requires s' == c.msolSupply + order.bought - order.swapped
    ensures order.bought * v' < (lamports + 1) * s'
  {
    var v, s, b, k, d := Virtual(c), c.msolSupply, order.bought, order.swapped, lamports;
    MintedShares(c, lamports);
    assert (d + 1) * s' == d * s' + s';
    if k == 0 {
      BackFromMint(v, s, d, b);
    } else if k < b {
      FloorBounds(k, v, s);
      BackFromSwap(v, s, d, b, k, order.solSwapped);
    }
  }

  /** With no value behind the supply, a share costs a lamport and is worth at most one. */
  lemma WorthlessBefore(d: nat, v': nat, s': nat)
    requires v' <= d <= s'
    ensures d * v' < (d + 1) * s' || s' == 0
  {
    MulMono(v', s', d);
    assert d * v' == v' * d && (d + 1) * s' == s' * d + s';
  }

  /** All mSOL bought with a deposit is worth less than a lamport more than it afterwards. */
  lemma DepositIsWorth(c: Chain, lamports: nat, funds: nat)
    requires Inv(c) && 0 < c.msolSupply && Users.Deposit(c, lamports, funds).Ok?
    ensures Users.DepositOrder(c, lamports).Ok? && Backed(c) && c.config.delayedFee <= MAX_BP_CENTS
    ensures var c1, bought := Users.Deposit(c, lamports, funds).value, Users.DepositOrder(c, lamports).value.bought;
            && c1.config == c.config && 0 < c1.msolSupply
            && bought * Virtual(c1) < (lamports + 1) * c1.msolSupply
  {
    var c1 := Users.Deposit(c, lamports, funds).value;
    DepositEffect(c, lamports, funds);
    SwapCostsAtMostDeposit(c, lamports);
    var order := Users.DepositOrder(c, lamports).value;
    if Virtual(c) > 0 {
      WorthAtMost(c, lamports, Virtual(c1), c1.msolSupply, order);
    } else {
      WorthlessBefore(lamports, Virtual(c1), c1.msolSupply);
    }
  }

  lemma OrderIsTicket(c: Chain, now: Clock, msol: nat, tokens: nat, ticketKey: Key, beneficiary: Key)
    requires Users.OrderUnstake(c, now, msol, tokens, ticketKey, beneficiary).Ok?
    ensures Users.TicketLamports(c, msol).Ok?
    ensures var c' := Users.OrderUnstake(c, now, msol, tokens, ticketKey, beneficiary).value;
            ticketKey in c'.tickets && c'.tickets[ticketKey].lamports == Users.TicketLamports(c, msol).value
  {
  }

  /** A deposit of D lamports, however it is split between the pool and minting, followed by an unstake
      order of all the mSOL received, gives a ticket of at most D lamports. */
  lemma DepositThenOrderNeverProfits(c: Chain, lamports: nat, funds: nat, now: Clock, msol: nat, tokens: nat,
                                     ticketKey: Key, beneficiary: Key)
    requires Inv(c) && 0 < c.msolSupply
    requires Users.Deposit(c, lamports, funds).Ok?
    requires var c1 := Users.Deposit(c, lamports, funds).value;
             msol == Held(c1) - Held(c) && Users.OrderUnstake(c1, now, msol, tokens, ticketKey, beneficiary).Ok?
    ensures var c2 := Users.OrderUnstake(Users.Deposit(c, lamports, funds).value, now, msol, tokens, ticketKey,
                                         beneficiary).value;
            ticketKey in c2.tickets && c2.tickets[ticketKey].lamports <= lamports
  {
    hide Books, Users.OrderUnstake;
    hide Inv, Users.Deposit, Users.OrderUnstake, Virtual;
    DepositIsWorth(c, lamports, funds);
    DepositDelivers(c, lamports, funds);
    OrderIsTicket(Users.Deposit(c, lamports, funds).value, now, msol, tokens, ticketKey, beneficiary);
    TicketAtMost(Users.Deposit(c, lamports, funds).value, msol, lamports);
  }

  lemma TicketAtMost(c: Chain, msol: nat, lamports: nat)
    requires c.config.delayedFee <= MAX_BP_CENTS && 0 < c.msolSupply && Users.TicketLamports(c, msol).Ok?
    requires msol * Virtual(c) < (lamports + 1) * c.msolSupply
    ensures Users.TicketLamports(c, msol).value <= lamports
  {
    var value := MsolToSol(c, msol).value;
    FloorBounds(msol, Virtual(c), c.msolSupply);
    CancelStrict(value, lamports + 1, c.msolSupply);
    PortionAtMost(value, c.config.delayedFee, MAX_BP_CENTS);
  }

  /** With no mSOL before, the depositor gets one share a lamport and so everything there is: the ticket
      exceeds the deposit exactly when value was left behind that the fee does not take. */
  lemma FirstDepositOwnsLeftovers(c: Chain, lamports: nat, funds: nat, now: Clock, tokens: nat, ticketKey: Key,
                                  beneficiary: Key)
    requires Inv(c) && c.msolSupply == 0 && Users.Deposit(c, lamports, funds).Ok?
    requires Users.OrderUnstake(Users.Deposit(c, lamports, funds).value, now, lamports, tokens, ticketKey,
                                beneficiary).Ok?
    ensures var c2 := Users.OrderUnstake(Users.Deposit(c, lamports, funds).value, now, lamports, tokens, ticketKey,
                                         beneficiary).value;
            && ticketKey in c2.tickets
            && (c2.tickets[ticketKey].lamports <= lamports <==>
                  (lamports == 0 || Virtual(c) <= FeeCentsApply(c.config.delayedFee, lamports + Virtual(c))))
  {
    hide Users.Deposit;
    FirstDepositPrice(c, lamports, funds);
    var c1 := Users.Deposit(c, lamports, funds).value;
    PortionAtMost(MsolToSol(c1, lamports).value, c.config.delayedFee, MAX_BP_CENTS);
  }

  lemma AllSharesOwnAll(shares: nat, value: nat)
    requires 0 < shares && value < U64_LIMIT
    ensures Proportional(shares, value, shares) == Ok(value)
  {
    assert shares * value == value * shares;
    ProportionalIsFloor(shares, value, shares, value);
  }

  lemma FirstDepositPrice(c: Chain, lamports: nat, funds: nat)
    requires Backed(c) && c.msolSupply == 0 && Users.Deposit(c, lamports, funds).Ok?
    ensures var c1 := Users.Deposit(c, lamports, funds).value;
            && c1.config == c.config && c1.msolSupply == lamports
            && (MsolToSol(c1, lamports).Ok? ==>
                  MsolToSol(c1, lamports).value == if lamports == 0 then 0
                    else SatSub(Control(c) + lamports, c.ticketBalance))
  {
    var c1 := Users.Deposit(c, lamports, funds).value;
    if Control(c1) < U64_LIMIT && lamports > 0 {
      AllSharesOwnAll(lamports, Virtual(c1));
    }
  }
}
