/** Integer arithmetic of the program: checked u64 operations, shares and fees. */
module Calc {
  import opened Results

  const U64_LIMIT: nat := 0x1_0000_0000_0000_0000
  const U32_LIMIT: nat := 0x1_0000_0000
  const U64_MAX: nat := U64_LIMIT - 1

  const MAX_BASIS_POINTS: nat := 10_000
  const MAX_BP_CENTS: nat := 1_000_000

  // The result of a u64 operation, or Overflow.
  function U64(n: int): Result<nat> {
    if 0 <= n < U64_LIMIT then Ok(n) else Err(Overflow)
  }

  function U32(n: int): Result<nat> {
    if 0 <= n < U32_LIMIT then Ok(n) else Err(Overflow)
  }

  // Checked subtraction; the error says which balance was too small.
  function Sub(a: nat, b: nat, error: Error): Result<nat> {
    if b <= a then Ok(a - b) else Err(error)
  }

  function SatSub(a: nat, b: nat): nat {
    if b <= a then a - b else 0
  }

  function Min(a: int, b: int): int {
    if a <= b then a else b
  }

  // amount * numerator / denominator over u128; a zero denominator gives the amount back.
  function Proportional(amount: nat, numerator: nat, denominator: nat): Result<nat> {
    if denominator == 0 then Ok(amount)
    else if amount * numerator / denominator < U64_LIMIT then Ok(amount * numerator / denominator)
    else Err(CalculationFailure)
  }

  function ValueFromShares(shares: nat, totalValue: nat, totalShares: nat): Result<nat> {
    Proportional(shares, totalValue, totalShares)
  }

  function SharesFromValue(value: nat, totalValue: nat, totalShares: nat): Result<nat> {
    if totalShares == 0 then Ok(value) else Proportional(value, totalShares, totalValue)
  }

  // A part of lamports; the quotient is cut to u64 without a check.
  function Portion(lamports: nat, points: nat, all: nat): nat
    requires all > 0
  {
    (lamports * points / all) % U64_LIMIT
  }

  function FeeApply(basisPoints: nat, lamports: nat): nat {
    Portion(lamports, basisPoints, MAX_BASIS_POINTS)
  }

  function FeeCentsApply(bpCents: nat, lamports: nat): nat {
    Portion(lamports, bpCents, MAX_BP_CENTS)
  }

  // ---------- what the divisions mean ----------

  lemma {:induction false} ProductNonNegative(a: nat, b: nat)
    ensures a * b >= 0
  {
    if a > 0 {
      ProductNonNegative(a - 1, b);
      assert a * b == (a - 1) * b + b;
    }
  }

  lemma ProductSign(x: int, d: int)
    requires d > 0
    ensures x > 0 ==> x * d >= d
    ensures x < 0 ==> x * d <= -d
  {
    if x > 0 {
      ProductNonNegative(x - 1, d);
      assert x * d == (x - 1) * d + d;
    } else if x < 0 {
      ProductNonNegative(-x - 1, d);
      assert x * d == -((-x - 1) * d) - d;
    }
  }

  lemma MulMono(a: int, b: int, d: int)
    requires a <= b && 0 <= d
    ensures a * d <= b * d
  {
    ProductNonNegative(b - a, d);
    assert (b - a) * d == b * d - a * d;
  }

  lemma DivMod(a: nat, d: nat)
    requires d > 0
    ensures a == a / d * d + a % d && 0 <= a % d < d
  {
  }

  lemma QuotientIs(a: nat, d: nat, q: nat)
    requires d > 0
    requires q * d <= a < q * d + d
    ensures a / d == q
  {
    var p := a / d;
    DivMod(a, d);
    ProductSign(p - q, d);
    assert (p - q) * d == p * d - q * d;
  }

  /** With a denominator, the result is the floor of the exact quotient, and the call fails exactly
      when that floor does not fit u64. */
  lemma ProportionalIsFloor(amount: nat, numerator: nat, denominator: nat, q: nat)
    requires denominator > 0
    ensures Proportional(amount, numerator, denominator) == Ok(q) <==>
            q < U64_LIMIT && q * denominator <= amount * numerator < q * denominator + denominator
  {
    var p := amount * numerator;
    DivMod(p, denominator);
    if q * denominator <= p < q * denominator + denominator {
      QuotientIs(p, denominator, q);
    }
  }

  lemma FloorBounds(amount: nat, numerator: nat, denominator: nat)
    requires denominator > 0
    requires Proportional(amount, numerator, denominator).Ok?
    ensures var q := Proportional(amount, numerator, denominator).value;
            q * denominator <= amount * numerator < q * denominator + denominator
  {
    ProportionalIsFloor(amount, numerator, denominator, Proportional(amount, numerator, denominator).value);
  }

  lemma CancelFactor(a: int, b: int, d: int)
    requires d > 0
    requires a * d <= b * d
    ensures a <= b
  {
    ProductSign(a - b, d);
    assert (a - b) * d == a * d - b * d;
  }

  lemma CancelStrict(a: int, b: int, d: int)
    requires d > 0
    requires a * d < b * d
    ensures a < b
  {
    ProductSign(b - a, d);
    assert (b - a) * d == b * d - a * d;
  }

  lemma MulSwap(a: int, b: int, d: int)
    ensures (a * b) * d == (a * d) * b
  {
  }

  lemma MulRotate(a: int, b: int, d: int)
    ensures (a * b) * d == (d * a) * b
  {
  }

  lemma QuotientWithin(lamports: nat, points: nat, all: nat)
    requires 0 < all && points <= all
    ensures lamports * points / all <= lamports
  {
    MulMono(points, all, lamports);
    DivMod(lamports * points, all);
    CancelFactor(lamports * points / all, lamports, all);
  }

  lemma CutAtMost(q: nat)
    ensures q % U64_LIMIT <= q
    ensures q % U64_LIMIT == q <==> q < U64_LIMIT
  {
  }

  /** No fee exceeds what it is taken from while it is at most 100%. */
  lemma PortionAtMost(lamports: nat, points: nat, all: nat)
    requires 0 < all && points <= all
    ensures Portion(lamports, points, all) <= lamports
  {
    QuotientWithin(lamports, points, all);
    CutAtMost(lamports * points / all);
  }

  lemma QuotientBeyond(lamports: nat, points: nat, all: nat)
    requires 0 < all < points && all <= lamports
    ensures lamports < lamports * points / all
  {
    MulMono(all + 1, points, lamports);
    assert (all + 1) * lamports == lamports * all + lamports;
    DivMod(lamports * points, all);
    assert (lamports * points / all + 1) * all == lamports * points / all * all + all;
    CancelStrict(lamports + 1, lamports * points / all + 1, all);
  }

  lemma PortionKept(lamports: nat, points: nat, all: nat)
    requires 0 < all && points <= all && lamports < U64_LIMIT
    ensures Portion(lamports, points, all) == lamports * points / all
  {
    QuotientWithin(lamports, points, all);
    CutAtMost(lamports * points / all);
  }

  lemma PortionCut(points: nat, all: nat)
    requires 0 < all < points && all <= U64_MAX
    ensures Portion(U64_MAX, points, all) != U64_MAX * points / all
  {
    QuotientBeyond(U64_MAX, points, all);
    CutAtMost(U64_MAX * points / all);
  }

  /** The unchecked cast of a fee loses nothing, whatever u64 amount it is taken from, exactly when the fee
      is at most 100%. */
  lemma PortionExact(points: nat, all: nat)
    requires 0 < all <= U64_MAX
    ensures points <= all <==>
            forall lamports: nat ::
              lamports < U64_LIMIT ==> Portion(lamports, points, all) == lamports * points / all
  {
    if points <= all {
      forall lamports: nat | lamports < U64_LIMIT
        ensures Portion(lamports, points, all) == lamports * points / all
      {
        PortionKept(lamports, points, all);
      }
    } else {
      PortionCut(points, all);
    }
  }

  /** Buying shares with a value and valuing them again at the same rate gives at most that value;
      it falls short by less than one share's worth and one lamport together. */
  lemma SharesRoundTrip(value: nat, totalValue: nat, totalShares: nat)
    requires totalValue > 0 && totalShares > 0
    requires SharesFromValue(value, totalValue, totalShares).Ok?
    ensures var shares := SharesFromValue(value, totalValue, totalShares).value;
            ValueFromShares(shares, totalValue, totalShares).Ok? ==>
              var back := ValueFromShares(shares, totalValue, totalShares).value;
              back <= value && value * totalShares < (back + 1) * totalShares + totalValue
  {
    var shares := SharesFromValue(value, totalValue, totalShares).value;
    FloorBounds(value, totalShares, totalValue);
    if ValueFromShares(shares, totalValue, totalShares).Ok? {
      FloorBounds(shares, totalValue, totalShares);
      var back := ValueFromShares(shares, totalValue, totalShares).value;
      CancelFactor(back, value, totalShares);
      assert (back + 1) * totalShares == back * totalShares + totalShares;
    }
  }

  /** The same from the other side: shares turned into value and back never grow. */
  lemma ValueRoundTrip(shares: nat, totalValue: nat, totalShares: nat)
    requires totalValue > 0 && totalShares > 0
    requires ValueFromShares(shares, totalValue, totalShares).Ok?
    ensures var value := ValueFromShares(shares, totalValue, totalShares).value;
            forall part: nat | part <= value && SharesFromValue(part, totalValue, totalShares).Ok? ::
              SharesFromValue(part, totalValue, totalShares).value <= shares
  {
    var value := ValueFromShares(shares, totalValue, totalShares).value;
    FloorBounds(shares, totalValue, totalShares);
    forall part: nat | part <= value && SharesFromValue(part, totalValue, totalShares).Ok?
      ensures SharesFromValue(part, totalValue, totalShares).value <= shares
    {
      FloorBounds(part, totalShares, totalValue);
      MulMono(part, value, totalShares);
      CancelFactor(SharesFromValue(part, totalValue, totalShares).value, shares, totalValue);
    }
  }
}
