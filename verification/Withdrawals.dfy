/** A withdrawn stake account costs the remaining holders less than one unit of mSOL, and a run of them
    no more than as many parts of the price as there were withdrawals, out of the least supply one left. */
module Withdrawals {
  import opened Results
  import opened Calc
  import opened Records
  import opened State
  import opened Admin
  import opened Ledger
  import opened Machine
  import Users
  import opened UserBooks
  import opened Invariants
  import opened Price

  /** The split lamports are at most the worth of the mSOL given in. */
  lemma SplitWorth(c: Chain, msol: nat)
    requires Users.SplitLamports(c, msol).Ok? && c.config.withdrawFee <= MAX_WITHDRAW_STAKE_ACCOUNT_FEE
    requires 0 < c.msolSupply && msol <= c.msolSupply
    ensures var lamports := Users.SplitLamports(c, msol).value;
            lamports * c.msolSupply <= msol * Virtual(c) && lamports <= Virtual(c)
  {
    SplitLamportsIsSound(c, msol);
    var value, lamports := MsolToSol(c, msol).value, Users.SplitLamports(c, msol).value;
    FloorBounds(msol, Virtual(c), c.msolSupply);
    MulMono(lamports, value, c.msolSupply);
    MulMono(msol, c.msolSupply, Virtual(c));
    CancelFactor(lamports, Virtual(c), c.msolSupply);
  }

  /** Pricing the split lamports back never asks for more mSOL than was given in, so the saturating
      subtraction of the fees never saturates. */
  lemma FeesNeverSaturate(c: Chain, msol: nat, shares: nat)
    requires Users.SplitLamports(c, msol).Ok? && c.config.withdrawFee <= MAX_WITHDRAW_STAKE_ACCOUNT_FEE
    requires 0 < c.msolSupply && msol <= c.msolSupply && 0 < Virtual(c)
    requires MsolFromLamports(c, Users.SplitLamports(c, msol).value) == Ok(shares)
    ensures shares <= msol
  {
    SplitWorth(c, msol);
    var lamports := Users.SplitLamports(c, msol).value;
    FloorBounds(lamports, c.msolSupply, Virtual(c));
    CancelFactor(shares, msol, Virtual(c));
  }

  lemma BurnFlooredShares(v: nat, s: nat, lamports: nat, burned: nat)
    requires lamports <= v && burned <= s && lamports * s < burned * v + v
    ensures (v - lamports) * s + v > v * (s - burned)
  {
    assert (v - lamports) * s == v * s - lamports * s;
    assert v * (s - burned) == v * s - burned * v;
  }

  /** What a withdrawal does to V and S. */
  ghost predicate Withdrawn(c: Chain, msol: nat, ready: bool, c': Chain) {
    && Users.SplitLamports(c, msol).Ok? && msol <= c.msolSupply
    && var lamports := Users.SplitLamports(c, msol).value;
       var fees := Users.WithdrawFees(c, msol, lamports, ready);
       && fees.Ok? && fees.value <= msol && 0 < lamports
       && c'.msolSupply == c.msolSupply - (msol - fees.value)
       && Control(c') == Control(c) - lamports && c'.ticketBalance == c.ticketBalance && c'.msolPrice == c.msolPrice
  }

  lemma WithdrawEffect(c: Chain, stakeIndex: nat, index: nat, msol: nat, funds: nat, key: Key, splitKey: Key, rent: nat,
                       ready: bool)
    requires Backed(c) && c.stakeSystem.minStake > 0
    requires Users.WithdrawStakeAccount(c, stakeIndex, index, msol, funds, key, splitKey, rent, ready).Ok?
    ensures Withdrawn(c, msol, ready, Users.WithdrawStakeAccount(c, stakeIndex, index, msol, funds, key, splitKey, rent,
                                                                 ready).value)
  {
    WithdrawIsHandOut(c, stakeIndex, index, msol, funds, key, splitKey, rent, ready);
  }

  /** What is burned covers the lamports handed out but for less than one unit of mSOL, and in full when
      the treasury takes no fee. */
  lemma BurnCovers(c: Chain, msol: nat, ready: bool)
    requires Users.SplitLamports(c, msol).Ok? && c.config.withdrawFee <= MAX_WITHDRAW_STAKE_ACCOUNT_FEE
    requires 0 < c.msolSupply && msol <= c.msolSupply && 0 < Virtual(c)
    requires Users.WithdrawFees(c, msol, Users.SplitLamports(c, msol).value, ready).Ok?
    ensures var lamports := Users.SplitLamports(c, msol).value;
            var fees := Users.WithdrawFees(c, msol, lamports, ready).value;
            && fees <= msol && lamports <= Virtual(c)
            && lamports * c.msolSupply < (msol - fees) * Virtual(c) + Virtual(c)
            && (ready ==> MsolFromLamports(c, lamports) == Ok(msol - fees))
            && (!ready ==> fees == 0 && lamports * c.msolSupply <= msol * Virtual(c))
  {
    SplitWorth(c, msol);
    if ready {
      var lamports := Users.SplitLamports(c, msol).value;
      FeesNeverSaturate(c, msol, MsolFromLamports(c, lamports).value);
      FloorBounds(lamports, c.msolSupply, Virtual(c));
    }
  }

  /** V dropped by the lamports handed out; the mSOL given in is what was burned and the treasury's fees,
      which price the lamports exactly when there are any; and the price fell by less than one unit of
      mSOL, not at all without a treasury fee. */
  ghost predicate WithdrawnWithin(c: Chain, msol: nat, lamports: nat, ready: bool, c': Chain) {
    && c'.msolSupply <= c.msolSupply
    && Virtual(c') == Virtual(c) - lamports
    && Users.WithdrawFees(c, msol, lamports, ready) == Ok(msol - (c.msolSupply - c'.msolSupply))
    && (ready ==> MsolFromLamports(c, lamports) == Ok(c.msolSupply - c'.msolSupply))
    && (!ready ==> c.msolSupply - c'.msolSupply == msol && NoCheaper(c, c'))
    && Virtual(c') * c.msolSupply + Virtual(c) > Virtual(c) * c'.msolSupply
  }

  lemma CoveredIsWithin(c: Chain, msol: nat, lamports: nat, burned: nat, ready: bool, c': Chain)
    requires burned <= msol <= c.msolSupply && lamports <= Virtual(c) && 0 < Virtual(c)
    requires lamports * c.msolSupply < burned * Virtual(c) + Virtual(c)
    requires Users.WithdrawFees(c, msol, lamports, ready) == Ok(msol - burned)
    requires ready ==> MsolFromLamports(c, lamports) == Ok(burned)
    requires !ready ==> burned == msol && lamports * c.msolSupply <= msol * Virtual(c)
    requires Control(c') == Control(c) - lamports && c'.ticketBalance == c.ticketBalance
             && c'.msolSupply == c.msolSupply - burned
    ensures WithdrawnWithin(c, msol, lamports, ready, c')
  {
    BurnFlooredShares(Virtual(c), c.msolSupply, lamports, burned);
    if !ready {
      BurnKeepsPrice(Virtual(c), c.msolSupply, lamports, msol);
    }
  }

  lemma NothingIsWorthless(c: Chain, msol: nat)
    ensures 0 < c.msolSupply && Virtual(c) == 0 && MsolToSol(c, msol).Ok? ==> MsolToSol(c, msol).value == 0
  {
    if 0 < c.msolSupply && Virtual(c) == 0 && MsolToSol(c, msol).Ok? {
      FloorBounds(msol, 0, c.msolSupply);
      CancelFactor(MsolToSol(c, msol).value, 0, c.msolSupply);
    }
  }

  /** A withdrawal only happens while there is mSOL with value behind it, as it hands lamports out. */
  lemma WithdrawNeedsValue(c: Chain, msol: nat, ready: bool, c': Chain)
    requires Withdrawn(c, msol, ready, c') && c.config.withdrawFee <= MAX_WITHDRAW_STAKE_ACCOUNT_FEE
    ensures 0 < c.msolSupply && 0 < Virtual(c)
  {
    SplitLamportsIsSound(c, msol);
    NothingIsWorthless(c, msol);
  }

  lemma WithdrawnIsBounded(c: Chain, msol: nat, ready: bool, c': Chain)
    requires Withdrawn(c, msol, ready, c') && c.config.withdrawFee <= MAX_WITHDRAW_STAKE_ACCOUNT_FEE
    ensures WithdrawnWithin(c, msol, Users.SplitLamports(c, msol).value, ready, c')
  {
    WithdrawNeedsValue(c, msol, ready, c');
    BurnCovers(c, msol, ready);
    var lamports := Users.SplitLamports(c, msol).value;
    CoveredIsWithin(c, msol, lamports, msol - Users.WithdrawFees(c, msol, lamports, ready).value, ready, c');
  }

  /** A withdrawal costs the remaining holders less than one unit of mSOL. */
  lemma WithdrawIsBounded(c: Chain, stakeIndex: nat, index: nat, msol: nat, funds: nat, key: Key, splitKey: Key,
                          rent: nat, ready: bool)
    requires Inv(c) && Users.WithdrawStakeAccount(c, stakeIndex, index, msol, funds, key, splitKey, rent, ready).Ok?
    ensures Users.SplitLamports(c, msol).Ok? && 0 < c.msolSupply && 0 < Virtual(c)
    ensures WithdrawnWithin(c, msol, Users.SplitLamports(c, msol).value, ready,
                            Users.WithdrawStakeAccount(c, stakeIndex, index, msol, funds, key, splitKey, rent,
                                                       ready).value)
  {
    var c' := Users.WithdrawStakeAccount(c, stakeIndex, index, msol, funds, key, splitKey, rent, ready).value;
    WithdrawEffect(c, stakeIndex, index, msol, funds, key, splitKey, rent, ready);
    WithdrawNeedsValue(c, msol, ready, c');
    WithdrawnIsBounded(c, msol, ready, c');
  }

  // ---------- runs with withdrawals ----------

  /** The price kept all but k parts of m. */
  ghost predicate KeepsBut(c: Chain, k: nat, m: nat, c': Chain)
    requires k <= m
  {
    Virtual(c') * c.msolSupply * m >= Virtual(c) * c'.msolSupply * (m - k)
  }

  lemma Reordered(a: nat, b: nat, x: nat, d: nat, y: nat)
    ensures (a * b * x) * (d * y) == ((a * d) * (x * y)) * b
  {
  }

  lemma ReorderedToo(a: nat, b: nat, x: nat, d: nat, y: nat)
    ensures (a * b * x) * (d * y) == (a * d * y) * (b * x)
  {
  }

  lemma ChainLosses(p1: nat, q1: nat, p2: nat, q2: nat, x: nat, y: nat)
    requires p1 <= q1 && p2 <= q2 && q1 * x == p2 * y
    ensures p1 * x <= q2 * y
  {
    MulMono(p1, q1, x);
    MulMono(p2, q2, y);
  }

  /** Losing k parts of m and then j parts of m is losing at most k + j of them. */
  lemma LossesAdd(v: nat, s: nat, v1: nat, s1: nat, v2: nat, s2: nat, m: nat, k: nat, j: nat)
    requires 0 < s1 && 0 < m && k + j <= m
    requires v * s1 * (m - k) <= v1 * s * m && v1 * s2 * (m - j) <= v2 * s1 * m
    ensures v * s2 * (m - k - j) <= v2 * s * m
  {
    ReorderedToo(v1, s, m, s2, m - j);
    ChainLosses(v * s1 * (m - k), v1 * s * m, v1 * s2 * (m - j), v2 * s1 * m, s2 * (m - j), s * m);
    Reordered(v, s1, m - k, s2, m - j);
    Reordered(v2, s1, m, s, m);
    CancelFactor((v * s2) * ((m - k) * (m - j)), (v2 * s) * (m * m), s1);
    LossesMeet(v * s2, v2 * s, m, k, j);
  }

  lemma LossesMeet(a: nat, b: nat, m: nat, k: nat, j: nat)
    requires 0 < m && k + j <= m
    requires a * ((m - k) * (m - j)) <= b * (m * m)
    ensures a * (m - k - j) <= b * m
  {
    ProductNonNegative(k, j);
    assert (m - k) * (m - j) == m * (m - k - j) + k * j;
    MulMono(m * (m - k - j), (m - k) * (m - j), a);
    assert (m * (m - k - j)) * a == (a * (m - k - j)) * m;
    assert ((m - k) * (m - j)) * a == a * ((m - k) * (m - j));
    assert b * (m * m) == (b * m) * m;
    CancelFactor(a * (m - k - j), b * m, m);
  }

  lemma KeepsButThen(c: Chain, k: nat, c1: Chain, j: nat, m: nat, c2: Chain)
    requires 0 < m && k + j <= m && 0 < c1.msolSupply && KeepsBut(c, k, m, c1) && KeepsBut(c1, j, m, c2)
    ensures KeepsBut(c, k + j, m, c2)
  {
    LossesAdd(Virtual(c), c.msolSupply, Virtual(c1), c1.msolSupply, Virtual(c2), c2.msolSupply, m, k, j);
  }

  lemma OnePartLost(v: nat, s: nat, v': nat, s': nat, m: nat)
    requires v' * s + v >= v * s' && 0 < m <= s'
    ensures v * s' * (m - 1) <= v' * s * m
  {
    MulMono(v * s', v' * s + v, m);
    assert (v' * s + v) * m == v' * s * m + v * m;
    MulMono(m, s', v);
    assert m * v == v * m && s' * v == v * s';
    assert v * s' * (m - 1) == v * s' * m - v * s';
  }

  lemma NoPartLost(v: nat, s: nat, v': nat, s': nat, m: nat)
    requires v' * s >= v * s'
    ensures v * s' * m <= v' * s * m
  {
    MulMono(v * s', v' * s, m);
  }

  /** A successful step that is no slash, and leaves at least `least` mSOL if it is a withdrawal. */
  ghost predicate Mild(c: Chain, e: Event, least: nat) {
    Step(c, e).Ok? ==>
      !Slashes(c, e.action) && if e.action.WithdrawStakeAccount? then least <= Step(c, e).value.msolSupply
        else Priced(c, e.action)
  }

  ghost predicate AllMild(c: Chain, events: seq<Event>, least: nat) {
    events == [] ||
    var most, last := events[..|events| - 1], events[|events| - 1];
    AllMild(c, most, least) && Mild(Run(c, most), last, least)
  }

  /** 1 for a successful withdrawal, else 0. */
  function Withdraws(c: Chain, e: Event): nat {
    if e.action.WithdrawStakeAccount? && Step(c, e).Ok? then 1 else 0
  }

  function Withdrawals(c: Chain, events: seq<Event>): nat {
    if events == [] then 0
    else
      var most := events[..|events| - 1];
      Withdrawals(c, most) + Withdraws(Run(c, most), events[|events| - 1])
  }

  lemma WithdrawLosesOnePart(c: Chain, e: Event, least: nat)
    requires Inv(c) && e.action.WithdrawStakeAccount? && Step(c, e).Ok? && 0 < least <= Step(c, e).value.msolSupply
    ensures 0 < c.msolSupply && KeepsBut(c, 1, least, Step(c, e).value)
  {
    var a, c' := e.action, Step(c, e).value;
    WithdrawIsBounded(c, a.stakeIndex, a.index, a.msol, a.funds, a.key, a.splitKey, a.rent, a.ready);
    OnePartLost(Virtual(c), c.msolSupply, Virtual(c'), c'.msolSupply, least);
  }

  lemma MildStepLoses(c: Chain, e: Event, least: nat)
    requires Inv(c) && 0 < least && Mild(c, e, least) && Step(c, e).Ok?
    ensures 0 < c.msolSupply && KeepsBut(c, Withdraws(c, e), least, Step(c, e).value)
  {
    if e.action.WithdrawStakeAccount? {
      WithdrawLosesOnePart(c, e, least);
    } else {
      StepKeepsPrice(c, e);
      NoPartLost(Virtual(c), c.msolSupply, Virtual(Step(c, e).value), Step(c, e).value.msolSupply, least);
    }
  }

  lemma NothingLostYet(c: Chain, m: nat)
    ensures KeepsBut(c, 0, m, c)
  {
  }

  lemma StepLosesOn(c: Chain, k: nat, before: Chain, e: Event, least: nat)
    requires Inv(before) && 0 < least && Mild(before, e, least) && k + Withdraws(before, e) <= least
    requires KeepsBut(c, k, least, before)
    ensures KeepsBut(c, k + Withdraws(before, e), least, Exec(before, e))
  {
    hide Inv, Step, Mild, KeepsBut;
    if Step(before, e).Ok? {
      MildStepLoses(before, e, least);
      KeepsButThen(c, k, before, Withdraws(before, e), least, Step(before, e).value);
    }
  }

  /** Over a whole run without slashes, k withdrawals that each leave at least `least` mSOL lower the price
      by at most k parts out of `least`, all other steps included. */
  lemma {:induction false} RunLosesAtMost(c: Chain, events: seq<Event>, least: nat)
    requires Inv(c) && 0 < least && AllMild(c, events, least) && Withdrawals(c, events) <= least
    ensures KeepsBut(c, Withdrawals(c, events), least, Run(c, events))
  {
    if events == [] {
      NothingLostYet(c, least);
    } else {
      var most, last := events[..|events| - 1], events[|events| - 1];
      RunLosesAtMost(c, most, least);
      RunKeepsInv(c, most);
      StepLosesOn(c, Withdrawals(c, most), Run(c, most), last, least);
    }
  }
}
