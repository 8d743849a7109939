/** The records the program keeps in its two lists, and the accounts it works on. */
module Records {
  import opened Calc

  newtype byte = x: int | 0 <= x < 256

  type u8 = n: nat | n < 256
  type u32 = n: nat | n < U32_LIMIT
  type u64 = n: nat | n < U64_LIMIT

  type Bytes32 = bytes: seq<byte> | |bytes| == 32 witness seq(32, _ => 0)

  /** An account address. */
  datatype Key = Key(bytes: Bytes32)

  datatype StakeRecord = StakeRecord(
    account: Key,
    lamports: nat,    // last_update_delegated_lamports
    epoch: u64,       // last_update_epoch
    emergency: u8)    // is_emergency_unstaking: 1 while cooling down after an emergency unstake, else 0

  datatype ValidatorRecord = ValidatorRecord(
    vote: Key,
    activeBalance: nat,
    score: u32,
    lastDeltaEpoch: u64,
    bump: u8)

  /** A delegated stake account; `stake` is the delegation, `rent` the rent-exempt part of `lamports`. */
  datatype StakeAccount = StakeAccount(voter: Key, deactivating: bool, stake: nat, lamports: nat, rent: nat)

  datatype Ticket = Ticket(beneficiary: Key, lamports: nat, createdEpoch: nat)

  /** What an instruction reads from the clock; `age` is the time since the epoch started. */
  datatype Clock = Clock(epoch: u64, slot: nat, lastSlot: nat, age: int)
}
