/** Failure-compatible result types, and the errors an instruction can return. */
module Results {

  datatype Error =
    // a checked addition, multiplication or conversion left its integer range
    | Overflow
    // a checked subtraction of a ledger balance went below zero
    | BalanceUnderflow
    // a transfer out of the reserve exceeds its real balance
    | ReserveShort
    // the virtual reserve balance would go below zero
    | ReserveUnderflow
    // an internal assertion of the program failed
    | AssertFailed
    // the total stake target is negative or does not fit u64
    | TargetOutOfRange
    | DesiredUnstakeTooLow
    // the stake, token or system program refused a call, or an account is missing or already in use
    | CallRefused
    | CalculationFailure
    | ListIndexOutOfBounds
    | ListOverflow
    | AccountDataTooSmall
    | DiscriminatorNotFound
    | DiscriminatorAlreadySet
    | BorshIoError
    | ProgramIsPaused
    | AlreadyPaused
    | NotPaused
    | WrongStakeAccountOrIndex
    | WrongValidatorAccountOrIndex
    | StakeNotDelegated
    | StakeAccountNotUpdatedYet
    | StakeAccountIsEmergencyUnstaking
    | SourceAndDestValidatorsAreTheSame
    | MovingStakeIsCapped
    | UnstakingOnPositiveDelta
    | TooEarlyForStakeDelta
    | RequiredDelegatedStake
    | RequiredActiveStake
    | RequiredDeactivatingStake
    | StakeMustBeDelegated
    | StakeMustNotBeDeactivating
    | StakeMustBeUpdated
    | InvalidStakeDelegation
    | EmergencyUnstakingFromNonZeroScoredValidator
    | RemovingValidatorWithBalance
    | DepositAmountIsTooLow
    | NotEnoughUserFunds
    | UnregisteredMsolMinted
    | UnregisteredLPMinted
    | StakingIsCapped
    | LiquidityIsCapped
    | DepositingNotActivatedStake
    | TooLowDelegationInDepositingStake
    | WrongStakeBalance
    | RedepositingMarinadeStake
    | WithdrawStakeAccountIsNotEnabled
    | WithdrawAmountIsTooLow
    | WithdrawStakeLamportsIsTooLow
    | SelectedStakeAccountHasNotEnoughFunds
    | StakeAccountRemainderTooLow
    | InsufficientLiquidity
    | WrongBeneficiary
    | ReusingDelayedUnstakeTicket
    | TicketNotDue
    | TicketNotReady
    | RewardsFeeIsTooHigh
    | UpdateWindowIsTooLow
    | MinStakeIsTooLow
    | MinWithdrawIsTooHigh
    | DelayedUnstakeFeeIsTooHigh
    | WithdrawStakeAccountFeeIsTooHigh
    | BasisPointsOverflow
    | LpMaxFeeIsTooHigh
    | LpFeesAreWrongWayRound
    | LiquidityTargetTooLow
    | TreasuryCutIsTooHigh

  datatype Result<+T> = Ok(value: T) | Err(error: Error) {
    predicate IsFailure() {
      Err?
    }

    function PropagateFailure<U>(): Result<U>
      requires Err?
    {
      Err(error)
    }

    function Extract(): T
      requires Ok?
    {
      value
    }
  }

  /** A check that carries no value. */
  datatype Outcome = Pass | Fail(error: Error) {
    predicate IsFailure() {
      Fail?
    }

    function PropagateFailure<U>(): Result<U>
      requires Fail?
    {
      Err(error)
    }
  }

  function Need(condition: bool, error: Error): Outcome {
    if condition then Pass else Fail(error)
  }
}
