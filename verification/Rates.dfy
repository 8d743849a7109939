/** The program's rates in terms of their own: what a division rounds to as two inequalities, the value
    behind the mSOL as a sum, and what both say of the functions of the program. */
module Rates {
  import opened Results
  import opened Calc
  import opened State

  /** q is a * n / d rounded down, and a itself where there is no divisor. */
  predicate Floors(q: nat, a: nat, n: nat, d: nat) {
    if d == 0 then q == a else q * d <= a * n < (q + 1) * d
  }

  lemma FloorsAreEqual(p: nat, q: nat, a: nat, n: nat, d: nat)
    requires Floors(p, a, n, d) && Floors(q, a, n, d)
    ensures p == q
  {
    if d > 0 {
      CancelStrict(p, q + 1, d);
      CancelStrict(q, p + 1, d);
    }
  }

  lemma FloorExists(a: nat, n: nat, d: nat)
    ensures exists q: nat :: Floors(q, a, n, d)
  {
    if d == 0 {
      assert Floors(a, a, n, d);
    } else {
      var q := a * n / d;
      DivMod(a * n, d);
      assert (q + 1) * d == q * d + d;
      assert Floors(q, a, n, d);
    }
  }

  /** There is one such number. */
  lemma FloorsOnce(a: nat, n: nat, d: nat)
    ensures exists q: nat :: Floors(q, a, n, d)
    ensures forall p: nat, q: nat :: Floors(p, a, n, d) && Floors(q, a, n, d) ==> p == q
  {
    hide Floors;
    FloorExists(a, n, d);
    forall p: nat, q: nat | Floors(p, a, n, d) && Floors(q, a, n, d)
      ensures p == q
    {
      FloorsAreEqual(p, q, a, n, d);
    }
  }

  lemma FloorsProportional(q: nat, a: nat, n: nat, d: nat)
    requires Floors(q, a, n, d)
    ensures Proportional(a, n, d) == if d == 0 || q < U64_LIMIT then Ok(q) else Err(CalculationFailure)
  {
    if d > 0 {
      assert (q + 1) * d == q * d + d;
      QuotientIs(a * n, d, q);
    }
  }

  lemma FloorsPortion(q: nat, lamports: nat, points: nat, all: nat)
    requires 0 < all && points <= all && lamports < U64_LIMIT && Floors(q, lamports, points, all)
    ensures Portion(lamports, points, all) == q <= lamports
  {
    PortionAtMost(lamports, points, all);
    PortionKept(lamports, points, all);
    assert (q + 1) * all == q * all + all;
    QuotientIs(lamports * points, all, q);
  }

  // ---------- the value behind the mSOL ----------

  /** All lamports of the pool: staked, cooling down, and in the reserve as far as it knows. */
  function InPool(c: Chain): nat {
    c.validatorSystem.totalActive + c.stakeSystem.delayedCooling + c.emergencyCooling + c.available
  }

  /** What is left of some lamports when all tickets are paid. */
  function LessTickets(c: Chain, lamports: nat): nat {
    if lamports < c.ticketBalance then 0 else lamports - c.ticketBalance
  }

  function Backing(c: Chain): nat {
    LessTickets(c, InPool(c))
  }

  /** The mSOL some lamports buy while `backing` lamports are behind `supply` units. */
  predicate Buys(q: nat, lamports: nat, backing: nat, supply: nat) {
    if supply == 0 then q == lamports else Floors(q, lamports, supply, backing)
  }

  /** The lamports some mSOL is worth. */
  predicate IsWorth(q: nat, msol: nat, backing: nat, supply: nat) {
    Floors(q, msol, backing, supply)
  }

  lemma BuysMsol(c: Chain, q: nat, lamports: nat)
    requires lamports < U64_LIMIT && Buys(q, lamports, Backing(c), c.msolSupply)
    ensures MsolFromLamports(c, lamports)
         == if InPool(c) >= U64_LIMIT then Err(Overflow) else if q < U64_LIMIT then Ok(q) else Err(CalculationFailure)
  {
    if c.msolSupply > 0 {
      FloorsProportional(q, lamports, c.msolSupply, Backing(c));
    }
  }

  lemma WorthLamports(c: Chain, q: nat, msol: nat)
    requires msol < U64_LIMIT && IsWorth(q, msol, Backing(c), c.msolSupply)
    ensures MsolToSol(c, msol)
         == if InPool(c) >= U64_LIMIT then Err(Overflow) else if q < U64_LIMIT then Ok(q) else Err(CalculationFailure)
  {
    FloorsProportional(q, msol, Backing(c), c.msolSupply);
  }

}
