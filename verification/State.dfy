/** The program's state account with the accounts it controls, as one value, and the functions of
    the state that instructions share. */
module State {
  import opened Results
  import opened Calc
  import opened Sums
  import opened Records

  datatype StakeSystem = StakeSystem(
    list: seq<StakeRecord>,
    capacity: nat,
    delayedCooling: nat,     // delayed_unstake_cooling_down
    lastDeltaEpoch: nat,
    minStake: nat,
    extraRuns: nat,
    slots: nat)

  datatype ValidatorSystem = ValidatorSystem(
    list: seq<ValidatorRecord>,
    capacity: nat,
    totalScore: nat,
    totalActive: nat)

  datatype LiqPool = LiqPool(
    target: nat,
    maxFee: nat,
    minFee: nat,
    treasuryCut: nat,
    lpSupply: nat,
    solCap: nat)

  /** Limits and fees set by the admin. */
  datatype Config = Config(
    rentExempt: nat,
    rewardFee: nat,
    minDeposit: nat,
    minWithdraw: nat,
    delayedFee: nat,
    withdrawFee: nat,
    withdrawEnabled: bool,
    maxMoved: nat)

  datatype Chain = Chain(
    // the state account
    config: Config,
    stakeSystem: StakeSystem,
    validatorSystem: ValidatorSystem,
    liqPool: LiqPool,
    available: nat,           // available_reserve_balance
    msolSupply: nat,          // virtual mSOL supply
    msolPrice: nat,
    ticketCount: nat,
    ticketBalance: nat,
    stakingCap: nat,
    emergencyCooling: nat,
    paused: bool,
    lastMoveEpoch: nat,
    stakeMoved: nat,
    // the accounts it controls
    stakes: map<Key, StakeAccount>,
    tickets: map<Key, Ticket>,
    reserve: nat,             // real lamports of the reserve
    msolMint: nat,            // real mSOL supply
    solLeg: nat,
    msolLeg: nat,
    lpMint: nat)              // real LP supply

  const PRICE_DENOMINATOR: nat := 0x1_0000_0000
  const LAMPORTS_PER_SOL: nat := 1_000_000_000
  const NEVER: u64 := U64_MAX

  // ---------- lists ----------

  function Get<T>(list: seq<T>, index: nat): Result<T> {
    if index < |list| then Ok(list[index]) else Err(ListIndexOutOfBounds)
  }

  function GetStake(system: StakeSystem, index: nat, key: Key): Result<StakeRecord> {
    var record :- Get(system.list, index);
    if record.account == key then Ok(record) else Err(WrongStakeAccountOrIndex)
  }

  function GetValidator(system: ValidatorSystem, index: nat, vote: Key): Result<ValidatorRecord> {
    var record :- Get(system.list, index);
    if record.vote == vote then Ok(record) else Err(WrongValidatorAccountOrIndex)
  }

  function AddStake(system: StakeSystem, account: Key, lamports: nat, epoch: u64, emergency: u8): Result<StakeSystem> {
    if |system.list| < system.capacity
    then Ok(system.(list := system.list + [StakeRecord(account, lamports, epoch, emergency)]))
    else Err(ListOverflow)
  }

  // ---------- calls into the stake program ----------

  function SplitStake(stakes: map<Key, StakeAccount>, key: Key, amount: nat, newKey: Key, rent: nat)
    : Result<map<Key, StakeAccount>>
  {
    if key in stakes && newKey !in stakes && amount <= stakes[key].stake && amount <= stakes[key].lamports then
      var source := stakes[key];
      Ok(stakes[key := source.(stake := source.stake - amount, lamports := source.lamports - amount)]
               [newKey := source.(stake := amount, lamports := rent + amount, rent := rent)])
    else
      Err(CallRefused)
  }

  function StartDeactivation(stakes: map<Key, StakeAccount>, key: Key): Result<map<Key, StakeAccount>> {
    if key in stakes && !stakes[key].deactivating
    then Ok(stakes[key := stakes[key].(deactivating := true)])
    else Err(CallRefused)
  }

  // The source keeps its delegation on paper but all its stake moves to the new account.
  function RedelegateStake(stakes: map<Key, StakeAccount>, key: Key, vote: Key, newKey: Key, rent: nat)
    : Result<map<Key, StakeAccount>>
  {
    if key in stakes && newKey !in stakes && !stakes[key].deactivating && stakes[key].stake <= stakes[key].lamports then
      var source := stakes[key];
      Ok(stakes[key := source.(deactivating := true, lamports := source.lamports - source.stake)]
               [newKey := StakeAccount(vote, false, source.stake, rent + source.stake, rent)])
    else
      Err(CallRefused)
  }

  function DelegateStake(stakes: map<Key, StakeAccount>, vote: Key, amount: nat, newKey: Key, rent: nat)
    : Result<map<Key, StakeAccount>>
  {
    if newKey !in stakes
    then Ok(stakes[newKey := StakeAccount(vote, false, amount, rent + amount, rent)])
    else Err(CallRefused)
  }

  // `extra` lamports of the source's rent may become part of the delegation.
  function MergeStake(stakes: map<Key, StakeAccount>, destKey: Key, sourceKey: Key, extra: nat)
    : Result<map<Key, StakeAccount>>
  {
    if destKey in stakes && sourceKey in stakes && destKey != sourceKey && extra <= stakes[sourceKey].rent then
      var dest, source := stakes[destKey], stakes[sourceKey];
      Ok(stakes[destKey := dest.(stake := dest.stake + source.stake + extra,
                                 lamports := dest.lamports + source.lamports)] - {sourceKey})
    else
      Err(CallRefused)
  }

  function WithdrawStake(stakes: map<Key, StakeAccount>, key: Key, amount: nat): Result<map<Key, StakeAccount>> {
    if key in stakes && amount <= stakes[key].lamports
    then Ok(stakes[key := stakes[key].(lamports := stakes[key].lamports - amount)])
    else Err(CallRefused)
  }

  // ---------- writing back records ----------

  function WithRecord(c: Chain, index: nat, record: StakeRecord): Chain
    requires index < |c.stakeSystem.list|
  {
    c.(stakeSystem := c.stakeSystem.(list := c.stakeSystem.list[index := record]))
  }

  function WithoutRecord(c: Chain, index: nat): Chain
    requires index < |c.stakeSystem.list|
  {
    c.(stakeSystem := c.stakeSystem.(list := SwapRemove(c.stakeSystem.list, index)))
  }

  function WithValidator(c: Chain, index: nat, validator: ValidatorRecord): Chain
    requires index < |c.validatorSystem.list|
  {
    c.(validatorSystem := c.validatorSystem.(list := c.validatorSystem.list[index := validator]))
  }

  function WithTotalActive(c: Chain, total: nat): Chain {
    c.(validatorSystem := c.validatorSystem.(totalActive := total))
  }

  // ---------- functions of the state ----------

  function TotalCooling(c: Chain): nat {
    c.stakeSystem.delayedCooling + c.emergencyCooling
  }

  // total_lamports_under_control
  function Control(c: Chain): nat {
    c.validatorSystem.totalActive + TotalCooling(c) + c.available
  }

  // total_virtual_staked_lamports
  function Virtual(c: Chain): nat {
    SatSub(Control(c), c.ticketBalance)
  }

  function MsolFromLamports(c: Chain, lamports: nat): Result<nat> {
    var _ :- U64(Control(c));
    SharesFromValue(lamports, Virtual(c), c.msolSupply)
  }

  function MsolToSol(c: Chain, msol: nat): Result<nat> {
    var _ :- U64(Control(c));
    ValueFromShares(msol, Virtual(c), c.msolSupply)
  }

  function StakingCapOk(c: Chain, lamports: nat): Outcome {
    if Control(c) + lamports >= U64_LIMIT then Fail(Overflow)
    else Need(Control(c) + lamports <= c.stakingCap, StakingIsCapped)
  }

  // stake_delta, on the real reserve balance
  function StakeDelta(c: Chain): int {
    var raw := SatSub(c.reserve, c.config.rentExempt) + c.stakeSystem.delayedCooling - c.ticketBalance;
    if raw >= 0 then raw else Min(raw + c.emergencyCooling, 0)
  }

  function StakeTarget(system: ValidatorSystem, validator: ValidatorRecord, totalTarget: nat): Result<nat> {
    if system.totalScore == 0 then Ok(0) else Proportional(totalTarget, validator.score, system.totalScore)
  }

  // The total target of the moves between validators: active balance plus the delta, as a u64.
  function MoveTarget(c: Chain): Result<nat> {
    var target := c.validatorSystem.totalActive + StakeDelta(c);
    if 0 <= target < U64_LIMIT then Ok(target) else Err(TargetOutOfRange)
  }

  // check_stake_amount_and_validator
  function CheckStake(stakes: map<Key, StakeAccount>, key: Key, expected: nat, vote: Key): Outcome {
    if key !in stakes then Fail(StakeNotDelegated)
    else if stakes[key].voter != vote then Fail(WrongValidatorAccountOrIndex)
    else Need(stakes[key].stake == expected, StakeAccountNotUpdatedYet)
  }

  function OnStakeMoved(c: Chain, amount: nat, now: Clock): Result<Chain> {
    var before := if now.epoch != c.lastMoveEpoch then 0 else c.stakeMoved;
    var moved :- U64(before + amount);
    var control :- U64(Control(c));
    if moved <= FeeApply(c.config.maxMoved, control)
    then Ok(c.(lastMoveEpoch := now.epoch, stakeMoved := moved))
    else Err(MovingStakeIsCapped)
  }

  // A holder outside the pool presents `funds` mSOL: no more than exists outside the pool's leg.
  function CheckMsolSource(c: Chain, amount: nat, funds: nat): Outcome {
    Need(amount <= funds && c.msolLeg + funds <= c.msolMint, NotEnoughUserFunds)
  }

  function Running(c: Chain): Outcome {
    Need(!c.paused, ProgramIsPaused)
  }

  function MintMsol(c: Chain, amount: nat): Result<Chain> {
    var mint :- U64(c.msolMint + amount);
    var supply :- U64(c.msolSupply + amount);
    Ok(c.(msolMint := mint, msolSupply := supply))
  }
}
