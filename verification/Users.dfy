/** What users do to the chain: deposits, delayed unstakes and claims, withdrawn stake accounts. */
module Users {
  import opened Results
  import opened Calc
  import opened Records
  import opened State

  // ---------- deposit ----------

  // The mSOL bought with a deposit, and the part of it the pool's leg sells.
  datatype Order = Order(bought: nat, swapped: nat, solSwapped: nat)

  function DepositOrder(c: Chain, lamports: nat): Result<Order> {
    var bought :- MsolFromLamports(c, lamports);
    var swapped := Min(bought, c.msolLeg);
    if swapped == 0 then Ok(Order(bought, 0, 0))
    else if bought == swapped then Ok(Order(bought, swapped, lamports))
    else
      var solSwapped :- MsolToSol(c, swapped);
      Ok(Order(bought, swapped, solSwapped))
  }

  function Deposit(c: Chain, lamports: nat, funds: nat): Result<Chain> {
    if c.paused then Err(ProgramIsPaused) else
    :- Need(lamports >= c.config.minDeposit, DepositAmountIsTooLow);
    :- Need(funds >= lamports, NotEnoughUserFunds);
    :- Need(c.msolMint <= c.msolSupply, UnregisteredMsolMinted);
    var order :- DepositOrder(c, lamports);
    Fill(c, lamports, order)
  }

  // The pool sells first; the rest of the deposit goes to the reserve and the rest of the order is minted.
  function Fill(c: Chain, lamports: nat, order: Order): Result<Chain> {
    var msolLeg :- Sub(c.msolLeg, order.swapped, BalanceUnderflow);
    var solLeg :- U64(c.solLeg + order.solSwapped);
    var deposited :- Sub(lamports, order.solSwapped, BalanceUnderflow);
    var c1 := c.(msolLeg := msolLeg, solLeg := solLeg);
    var c2 :- ToReserve(c1, deposited);
    var minted :- Sub(order.bought, order.swapped, BalanceUnderflow);
    MintMsol(c2, minted)
  }

  // What is left after the swap goes to the reserve, unless that would exceed the cap.
  function ToReserve(c: Chain, lamports: nat): Result<Chain> {
    if lamports == 0 then
      Ok(c)
    else
      :- StakingCapOk(c, lamports);
      var reserve :- U64(c.reserve + lamports);
      var available :- U64(c.available + lamports);
      Ok(c.(reserve := reserve, available := available))
  }

  // ---------- deposit_stake_account ----------

  function DepositStakeAccount(c: Chain, now: Clock, key: Key, account: StakeAccount, activationEpoch: nat,
                               index: nat): Result<Chain> {
    if c.paused then Err(ProgramIsPaused) else
    :- Need(c.msolMint <= c.msolSupply, UnregisteredMsolMinted);
    :- Need(!account.deactivating, RequiredActiveStake);
    :- Need(now.epoch >= activationEpoch, DepositingNotActivatedStake);
    :- Need(account.stake >= c.stakeSystem.minStake, TooLowDelegationInDepositingStake);
    :- Need(account.lamports == account.stake + account.rent, WrongStakeBalance);
    :- StakingCapOk(c, account.stake);
    var validator :- GetValidator(c.validatorSystem, index, account.voter);
    TakeIn(c, now, key, account, index, validator)
  }

  // The account joins the pool; its stake is priced before it counts as active.
  function TakeIn(c: Chain, now: Clock, key: Key, account: StakeAccount, index: nat,
                  validator: ValidatorRecord): Result<Chain>
    requires index < |c.validatorSystem.list|
  {
    var active :- U64(validator.activeBalance + account.stake);
    var c1 := WithValidator(c, index, validator.(activeBalance := active));
    :- Need(key !in c.stakes, RedepositingMarinadeStake);
    var system :- AddStake(c1.stakeSystem, key, account.stake, now.epoch, 0);
    var c2 := c1.(stakeSystem := system, stakes := c1.stakes[key := account]);
    var msol :- MsolFromLamports(c2, account.stake);
    var c3 :- MintMsol(c2, msol);
    var total :- U64(c3.validatorSystem.totalActive + account.stake);
    Ok(WithTotalActive(c3, total))
  }

  // ---------- withdraw_stake_account ----------

  // The lamports split off for the mSOL given in, after the fee.
  function SplitLamports(c: Chain, msol: nat): Result<nat> {
    var value :- MsolToSol(c, msol);
    :- Need(value >= c.config.minWithdraw, WithdrawAmountIsTooLow);
    Sub(value, FeeCentsApply(c.config.withdrawFee, value), BalanceUnderflow)
  }

  // The part of the mSOL kept for the treasury instead of being burned.
  function WithdrawFees(c: Chain, msol: nat, lamports: nat, treasuryReady: bool): Result<nat> {
    if treasuryReady then
      var shares :- MsolFromLamports(c, lamports);
      Ok(SatSub(msol, shares))
    else
      Ok(0)
  }

  // Burns the mSOL and hands the split account out of the pool.
  function HandOut(c: Chain, stakeIndex: nat, stake: StakeRecord, index: nat, validator: ValidatorRecord, lamports: nat,
                   burned: nat, splitKey: Key, rent: nat): Result<Chain>
    requires stakeIndex < |c.stakeSystem.list| && index < |c.validatorSystem.list| && lamports <= stake.lamports
  {
    var c1 :- BurnMsol(c, burned);
    var split :- SplitStake(c1.stakes, stake.account, lamports, splitKey, rent);
    var active :- Sub(validator.activeBalance, lamports, BalanceUnderflow);
    var total :- Sub(c1.validatorSystem.totalActive, lamports, BalanceUnderflow);
    var c2 := WithTotalActive(c1.(stakes := split - {splitKey}), total);
    Ok(WithValidator(WithRecord(c2, stakeIndex, stake.(lamports := stake.lamports - lamports)),
                     index, validator.(activeBalance := active)))
  }

  function WithdrawStakeAccount(c: Chain, stakeIndex: nat, index: nat, msol: nat, funds: nat, key: Key, splitKey: Key,
                                rent: nat, treasuryReady: bool): Result<Chain> {
    if splitKey in c.stakes then Err(CallRefused) else
    :- Running(c);
    :- Need(c.config.withdrawEnabled, WithdrawStakeAccountIsNotEnabled);
    :- CheckMsolSource(c, msol, funds);
    var stake :- GetStake(c.stakeSystem, stakeIndex, key);
    :- Need(stake.emergency == 0, StakeAccountIsEmergencyUnstaking);
    :- Need(key in c.stakes, RequiredDelegatedStake);
    :- Need(!c.stakes[key].deactivating, RequiredActiveStake);
    var validator :- Get(c.validatorSystem.list, index);
    :- CheckStake(c.stakes, key, stake.lamports, validator.vote);
    var lamports :- SplitLamports(c, msol);
    :- Need(lamports >= c.stakeSystem.minStake, WithdrawStakeLamportsIsTooLow);
    :- Need(stake.lamports >= lamports, SelectedStakeAccountHasNotEnoughFunds);
    :- Need(stake.lamports - lamports >= c.stakeSystem.minStake, StakeAccountRemainderTooLow);
    var fees :- WithdrawFees(c, msol, lamports, treasuryReady);
    HandOut(c, stakeIndex, stake, index, validator, lamports, msol - fees, splitKey, rent)
  }

  // ---------- order_unstake and claim ----------

  function BurnMsol(c: Chain, amount: nat): Result<Chain> {
    var mint :- Sub(c.msolMint, amount, CallRefused);
    var supply :- Sub(c.msolSupply, amount, BalanceUnderflow);
    Ok(c.(msolMint := mint, msolSupply := supply))
  }

  // What a ticket for this mSOL is worth.
  function TicketLamports(c: Chain, msol: nat): Result<nat> {
    var value :- MsolToSol(c, msol);
    Sub(value, FeeCentsApply(c.config.delayedFee, value), BalanceUnderflow)
  }

  function OrderUnstake(c: Chain, now: Clock, msol: nat, funds: nat, ticketKey: Key, beneficiary: Key): Result<Chain> {
    if ticketKey in c.tickets then Err(CallRefused) else
    :- Running(c);
    :- CheckMsolSource(c, msol, funds);
    var lamports :- TicketLamports(c, msol);
    :- Need(lamports >= c.config.minWithdraw, WithdrawAmountIsTooLow);
    var balance :- U64(c.ticketBalance + lamports);
    var count :- U64(c.ticketCount + 1);
    var c1 :- BurnMsol(c.(ticketBalance := balance, ticketCount := count), msol);
    var created :- U64(now.epoch + if now.epoch == c.stakeSystem.lastDeltaEpoch then 1 else 0);
    Ok(c1.(tickets := c1.tickets[ticketKey := Ticket(beneficiary, lamports, created)]))
  }

  const EXTRA_WAIT_SECONDS: int := 1

  function CheckTicket(now: Clock, ticket: Ticket): Outcome {
    if ticket.lamports == 0 then Fail(ReusingDelayedUnstakeTicket)
    else if now.epoch < ticket.createdEpoch then Fail(TicketNotDue)
    else Need(ticket.createdEpoch == now.epoch ==> now.age >= EXTRA_WAIT_SECONDS, TicketNotReady)
  }

  function Claim(c: Chain, now: Clock, ticketKey: Key, receiver: Key): Result<Chain> {
    if ticketKey !in c.tickets then Err(CallRefused) else
    var ticket := c.tickets[ticketKey];
    :- Need(receiver == ticket.beneficiary, WrongBeneficiary);
    :- Running(c);
    :- CheckTicket(now, ticket);
    var claimable :- Sub(c.reserve, c.config.rentExempt, BalanceUnderflow);
    :- Need(ticket.lamports <= claimable, TicketNotReady);
    PayTicket(c, ticketKey, ticket.lamports)
  }

  // Pays a ticket out of the reserve and closes it.
  function PayTicket(c: Chain, ticketKey: Key, lamports: nat): Result<Chain>
    requires lamports <= c.reserve
  {
    var balance :- Sub(c.ticketBalance, lamports, BalanceUnderflow);
    var count :- Sub(c.ticketCount, 1, BalanceUnderflow);
    var available :- Sub(c.available, lamports, ReserveUnderflow);
    Ok(c.(ticketBalance := balance, ticketCount := count, tickets := c.tickets - {ticketKey},
          reserve := c.reserve - lamports, available := available))
  }
}
