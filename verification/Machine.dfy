/** The whole program as a state machine: every instruction, and what the outside world does between
    instructions. A failed instruction reverts. */
module Machine {
  import opened Results
  import opened Calc
  import opened Records
  import opened State
  import opened Admin
  import Cranks
  import Users
  import Pools

  datatype Action =
    // users
    | Deposit(lamports: nat, funds: nat)
    | DepositStakeAccount(key: Key, account: StakeAccount, activationEpoch: nat, index: nat)
    | WithdrawStakeAccount(stakeIndex: nat, index: nat, msol: nat, funds: nat, key: Key, splitKey: Key, rent: nat,
                           ready: bool)
    | OrderUnstake(msol: nat, funds: nat, ticketKey: Key, beneficiary: Key)
    | Claim(ticketKey: Key, receiver: Key)
    | LiquidUnstake(msol: nat, funds: nat, ready: bool)
    | AddLiquidity(lamports: nat, funds: nat)
    | RemoveLiquidity(tokens: nat, funds: nat)
    // cranks and the manager
    | StakeReserve(index: nat, vote: Key, newKey: Key, rent: nat)
    | UpdateActive(stakeIndex: nat, index: nat, key: Key, ready: bool)
    | UpdateDeactivated(stakeIndex: nat, key: Key, ready: bool)
    | DeactivateStake(stakeIndex: nat, index: nat, key: Key, splitKey: Key, rent: nat)
    | EmergencyUnstake(stakeIndex: nat, index: nat, key: Key)
    | PartialUnstake(stakeIndex: nat, index: nat, desired: nat, key: Key, splitKey: Key, rent: nat)
    | MergeStakes(destIndex: nat, sourceIndex: nat, index: nat, destKey: Key, sourceKey: Key, extra: nat)
    | Redelegate(stakeIndex: nat, sourceIndex: nat, destIndex: nat, key: Key, destVote: Key, splitKey: Key, newKey: Key,
                 rent: nat)
    | AddValidator(vote: Key, score: u32, bump: u8)
    | RemoveValidator(index: nat, vote: Key)
    | SetValidatorScore(index: nat, vote: Key, score: u32)
    // the admin
    | ConfigMarinade(params: ConfigParams)
    | ConfigLp(minFee: Option<nat>, maxFee: Option<nat>, target: Option<nat>, treasuryCut: Option<nat>)
    | ConfigValidatorSystem(extraRuns: nat)
    | Pause
    | Resume
    // the outside world: rewards, slashing and lamports sent to a stake account; gifts; tokens burned
    | StakeAccountChanges(key: Key, stake: nat, lamports: nat)
    | GiftToReserve(lamports: nat)
    | GiftToSolLeg(lamports: nat)
    | GiftToMsolLeg(msol: nat)
    | HoldersBurnMsol(msol: nat)
    | HoldersBurnLp(tokens: nat)

  /** An action and the clock it runs at. */
  datatype Event = Event(now: Clock, action: Action)

  predicate Outside(a: Action) {
    a.StakeAccountChanges? || a.GiftToReserve? || a.GiftToSolLeg? || a.GiftToMsolLeg? || a.HoldersBurnMsol?
      || a.HoldersBurnLp?
  }

  function OutsideStep(c: Chain, a: Action): Result<Chain>
    requires Outside(a)
  {
    match a
    case StakeAccountChanges(key, stake, lamports) =>
      if key in c.stakes
      then Ok(c.(stakes := c.stakes[key := c.stakes[key].(stake := stake, lamports := lamports)]))
      else Err(CallRefused)
    case GiftToReserve(lamports) =>
      var reserve :- U64(c.reserve + lamports); Ok(c.(reserve := reserve))
    case GiftToSolLeg(lamports) =>
      var leg :- U64(c.solLeg + lamports); Ok(c.(solLeg := leg))
    case GiftToMsolLeg(msol) =>
      if c.msolLeg + msol <= c.msolMint then Ok(c.(msolLeg := c.msolLeg + msol)) else Err(CallRefused)
    case HoldersBurnMsol(msol) =>
      if c.msolLeg + msol <= c.msolMint then Ok(c.(msolMint := c.msolMint - msol)) else Err(CallRefused)
    case HoldersBurnLp(tokens) =>
      if tokens <= c.lpMint then Ok(c.(lpMint := c.lpMint - tokens)) else Err(CallRefused)
  }

  predicate IsUser(a: Action) {
    a.Deposit? || a.DepositStakeAccount? || a.WithdrawStakeAccount? || a.OrderUnstake? || a.Claim?
  }

  function UserStep(c: Chain, now: Clock, a: Action): Result<Chain>
    requires IsUser(a)
  {
    match a
    case Deposit(lamports, funds) => Users.Deposit(c, lamports, funds)
    case DepositStakeAccount(key, account, activationEpoch, index) =>
      Users.DepositStakeAccount(c, now, key, account, activationEpoch, index)
    case WithdrawStakeAccount(stakeIndex, index, msol, funds, key, splitKey, rent, ready) =>
      Users.WithdrawStakeAccount(c, stakeIndex, index, msol, funds, key, splitKey, rent, ready)
    case OrderUnstake(msol, funds, ticketKey, beneficiary) =>
      Users.OrderUnstake(c, now, msol, funds, ticketKey, beneficiary)
    case Claim(ticketKey, receiver) => Users.Claim(c, now, ticketKey, receiver)
  }

  predicate IsPool(a: Action) {
    a.LiquidUnstake? || a.AddLiquidity? || a.RemoveLiquidity?
  }

  function PoolStep(c: Chain, a: Action): Result<Chain>
    requires IsPool(a)
  {
    match a
    case LiquidUnstake(msol, funds, ready) => Pools.LiquidUnstake(c, msol, funds, ready)
    case AddLiquidity(lamports, funds) => Pools.AddLiquidity(c, lamports, funds)
    case RemoveLiquidity(tokens, funds) => Pools.RemoveLiquidity(c, tokens, funds)
  }

  /** The five instructions that rebalance stake. */
  predicate IsRebalance(a: Action) {
    a.StakeReserve? || a.DeactivateStake? || a.EmergencyUnstake? || a.PartialUnstake? || a.Redelegate?
  }

  function RebalanceStep(c: Chain, now: Clock, a: Action): Result<Chain>
    requires IsRebalance(a)
  {
    match a
    case StakeReserve(index, vote, newKey, rent) => Cranks.StakeReserve(c, now, index, vote, newKey, rent)
    case DeactivateStake(stakeIndex, index, key, splitKey, rent) =>
      Cranks.DeactivateStake(c, now, stakeIndex, index, key, splitKey, rent)
    case EmergencyUnstake(stakeIndex, index, key) => Cranks.EmergencyUnstake(c, now, stakeIndex, index, key)
    case PartialUnstake(stakeIndex, index, desired, key, splitKey, rent) =>
      Cranks.PartialUnstake(c, now, stakeIndex, index, desired, key, splitKey, rent)
    case Redelegate(stakeIndex, sourceIndex, destIndex, key, destVote, splitKey, newKey, rent) =>
      Cranks.Redelegate(c, now, stakeIndex, sourceIndex, destIndex, key, destVote, splitKey, newKey, rent)
  }

  predicate IsUpdate(a: Action) {
    a.UpdateActive? || a.UpdateDeactivated?
  }

  function UpkeepStep(c: Chain, now: Clock, a: Action): Result<Chain>
    requires IsUpdate(a) || a.MergeStakes?
  {
    match a
    case UpdateActive(stakeIndex, index, key, ready) => Cranks.UpdateActive(c, now, stakeIndex, index, key, ready)
    case UpdateDeactivated(stakeIndex, key, ready) => Cranks.UpdateDeactivated(c, stakeIndex, key, ready)
    case MergeStakes(destIndex, sourceIndex, index, destKey, sourceKey, extra) =>
      Cranks.MergeStakes(c, destIndex, sourceIndex, index, destKey, sourceKey, extra)
  }

  predicate IsAdmin(a: Action) {
    a.AddValidator? || a.RemoveValidator? || a.SetValidatorScore? || a.ConfigMarinade? || a.ConfigLp?
    || a.ConfigValidatorSystem? || a.Pause? || a.Resume?
  }

  function AdminStep(c: Chain, a: Action): Result<Chain>
    requires IsAdmin(a)
  {
    match a
    case AddValidator(vote, score, bump) => Admin.AddValidator(c, vote, score, bump)
    case RemoveValidator(index, vote) => Admin.RemoveValidator(c, index, vote)
    case SetValidatorScore(index, vote, score) => Admin.SetValidatorScore(c, index, vote, score)
    case ConfigMarinade(params) => Admin.ConfigMarinade(c, params)
    case ConfigLp(minFee, maxFee, target, treasuryCut) => Admin.ConfigLp(c, minFee, maxFee, target, treasuryCut)
    case ConfigValidatorSystem(extraRuns) => Admin.ConfigValidatorSystem(c, extraRuns)
    case Pause => Admin.Pause(c)
    case Resume => Admin.Resume(c)
  }

  function Step(c: Chain, e: Event): Result<Chain> {
    var a := e.action;
    if Outside(a) then OutsideStep(c, a)
    else if IsUser(a) then UserStep(c, e.now, a)
    else if IsPool(a) then PoolStep(c, a)
    else if IsRebalance(a) then RebalanceStep(c, e.now, a)
    else if IsAdmin(a) then AdminStep(c, a)
    else UpkeepStep(c, e.now, a)
  }

  /** The chain after an event: a failed instruction leaves it unchanged. */
  function Exec(c: Chain, e: Event): Chain {
    var r := Step(c, e);
    if r.Ok? then r.value else c
  }

  function Run(c: Chain, events: seq<Event>): Chain {
    if events == [] then c else Exec(Run(c, events[..|events| - 1]), events[|events| - 1])
  }
}
