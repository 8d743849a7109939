/** The byte form of the two kinds of record: fixed-width little-endian integers after a 32-byte key.
    A record is read back from the front of its bytes, whatever follows them. */
module Borsh {
  import opened Results
  import opened Calc
  import opened Records

  // ---------- integers ----------

  function LittleEndian(n: nat, width: nat): (bytes: seq<byte>)
    ensures |bytes| == width
  {
    if width == 0 then [] else [(n % 256) as byte] + LittleEndian(n / 256, width - 1)
  }

  function Pow256(width: nat): nat {
    if width == 0 then 1 else 256 * Pow256(width - 1)
  }

  function FromLittleEndian(bytes: seq<byte>): (n: nat)
    ensures n < Pow256(|bytes|)
  {
    if bytes == [] then 0 else bytes[0] as nat + 256 * FromLittleEndian(bytes[1..])
  }

  /** Integers that fit their width survive. */
  lemma {:induction false} IntegerRoundTrip(n: nat, width: nat)
    requires n < Pow256(width)
    ensures FromLittleEndian(LittleEndian(n, width)) == n
  {
    if width > 0 {
      IntegerRoundTrip(n / 256, width - 1);
      assert LittleEndian(n, width)[1..] == LittleEndian(n / 256, width - 1);
    }
  }

  /** Every byte string is the form of exactly the integer it reads as. */
  lemma {:induction false} BytesRoundTrip(bytes: seq<byte>)
    ensures LittleEndian(FromLittleEndian(bytes), |bytes|) == bytes
  {
    if bytes != [] {
      var first, rest := bytes[0] as nat, FromLittleEndian(bytes[1..]);
      BytesRoundTrip(bytes[1..]);
      assert (first + 256 * rest) % 256 == first && (first + 256 * rest) / 256 == rest;
    }
  }

  lemma WidthLimits()
    ensures Pow256(1) == 256 && Pow256(4) == U32_LIMIT && Pow256(8) == U64_LIMIT
  {
    assert Pow256(4) == 256 * (256 * (256 * (256 * Pow256(0))));
    assert Pow256(8) == 256 * (256 * (256 * (256 * Pow256(4))));
  }

  // ---------- reading ----------

  /** The first bytes of a reader, and what it has left. */
  datatype Chunk = Chunk(bytes: seq<byte>, rest: seq<byte>)

  function Take(bytes: seq<byte>, n: nat): Result<Chunk> {
    if n <= |bytes| then Ok(Chunk(bytes[..n], bytes[n..])) else Err(BorshIoError)
  }

  datatype Codec<!I> = Codec(encode: I -> seq<byte>, decode: seq<byte> -> Result<I>, storable: I -> bool, size: nat)

  /** Every storable item takes `size` bytes and is read back from them, whatever follows. */
  ghost predicate Lawful<I(!new)>(codec: Codec<I>) {
    forall item: I, tail: seq<byte> :: codec.storable(item) ==>
      |codec.encode(item)| == codec.size && codec.decode(codec.encode(item) + tail) == Ok(item)
  }

  // ---------- stake records ----------

  const STAKE_RECORD_SIZE: nat := 49

  predicate StorableStake(record: StakeRecord) {
    record.lamports < U64_LIMIT
  }

  function EncodeStake(record: StakeRecord): seq<byte> {
    record.account.bytes + LittleEndian(record.lamports, 8) + LittleEndian(record.epoch, 8)
      + LittleEndian(record.emergency, 1)
  }

  function DecodeStake(bytes: seq<byte>): Result<StakeRecord> {
    var account :- Take(bytes, 32);
    var lamports :- Take(account.rest, 8);
    var epoch :- Take(lamports.rest, 8);
    var emergency :- Take(epoch.rest, 1);
    WidthLimits();
    Ok(StakeRecord(Key(account.bytes), FromLittleEndian(lamports.bytes), FromLittleEndian(epoch.bytes),
                   FromLittleEndian(emergency.bytes)))
  }

  const STAKE_CODEC: Codec<StakeRecord> := Codec(EncodeStake, DecodeStake, StorableStake, STAKE_RECORD_SIZE)

  lemma StakeRoundTrip(record: StakeRecord, tail: seq<byte>)
    requires StorableStake(record)
    ensures |EncodeStake(record)| == STAKE_RECORD_SIZE
    ensures DecodeStake(EncodeStake(record) + tail) == Ok(record)
  {
    var bytes := EncodeStake(record) + tail;
    var key, lamports := record.account.bytes, LittleEndian(record.lamports, 8);
    var epoch, emergency := LittleEndian(record.epoch, 8), LittleEndian(record.emergency, 1);
    assert bytes[..32] == key && bytes[32..] == lamports + (epoch + (emergency + tail));
    assert bytes[32..][..8] == lamports && bytes[32..][8..] == epoch + (emergency + tail);
    assert bytes[32..][8..][..8] == epoch && bytes[32..][8..][8..] == emergency + tail;
    assert bytes[32..][8..][8..][..1] == emergency;
    WidthLimits();
    IntegerRoundTrip(record.lamports, 8);
    IntegerRoundTrip(record.epoch, 8);
    IntegerRoundTrip(record.emergency, 1);
  }

  /** Bytes are read exactly when there are enough of them, and then they are the form of what is read. */
  lemma StakeBytesRoundTrip(bytes: seq<byte>)
    ensures DecodeStake(bytes).Ok? <==> STAKE_RECORD_SIZE <= |bytes|
    ensures DecodeStake(bytes).Ok? ==>
              StorableStake(DecodeStake(bytes).value)
                && EncodeStake(DecodeStake(bytes).value) == bytes[..STAKE_RECORD_SIZE]
  {
    hide LittleEndian, FromLittleEndian;
    if STAKE_RECORD_SIZE <= |bytes| {
      WidthLimits();
      BytesRoundTrip(bytes[32..40]);
      BytesRoundTrip(bytes[40..48]);
      BytesRoundTrip(bytes[48..49]);
      assert bytes[32..][..8] == bytes[32..40] && bytes[32..][8..] == bytes[40..];
      assert bytes[40..][..8] == bytes[40..48] && bytes[40..][8..] == bytes[48..];
      assert bytes[48..][..1] == bytes[48..49];
      assert bytes[..32] + bytes[32..40] + bytes[40..48] + bytes[48..49] == bytes[..49];
    }
  }

  lemma StakeCodecIsLawful()
    ensures Lawful(STAKE_CODEC)
  {
    forall record, tail | StorableStake(record)
      ensures |EncodeStake(record)| == STAKE_RECORD_SIZE && DecodeStake(EncodeStake(record) + tail) == Ok(record)
    {
      StakeRoundTrip(record, tail);
    }
  }

  // ---------- validator records ----------

  const VALIDATOR_RECORD_SIZE: nat := 53

  predicate StorableValidator(record: ValidatorRecord) {
    record.activeBalance < U64_LIMIT
  }

  function EncodeValidator(record: ValidatorRecord): seq<byte> {
    record.vote.bytes + LittleEndian(record.activeBalance, 8) + LittleEndian(record.score, 4)
    + LittleEndian(record.lastDeltaEpoch, 8) + LittleEndian(record.bump, 1)
  }

  function DecodeValidator(bytes: seq<byte>): Result<ValidatorRecord> {
    var vote :- Take(bytes, 32);
    var active :- Take(vote.rest, 8);
    var score :- Take(active.rest, 4);
    var epoch :- Take(score.rest, 8);
    var bump :- Take(epoch.rest, 1);
    WidthLimits();
    Ok(ValidatorRecord(Key(vote.bytes), FromLittleEndian(active.bytes), FromLittleEndian(score.bytes),
                       FromLittleEndian(epoch.bytes), FromLittleEndian(bump.bytes)))
  }

  const VALIDATOR_CODEC: Codec<ValidatorRecord> :=
    Codec(EncodeValidator, DecodeValidator, StorableValidator, VALIDATOR_RECORD_SIZE)

  lemma ValidatorRoundTrip(record: ValidatorRecord, tail: seq<byte>)
    requires StorableValidator(record)
    ensures |EncodeValidator(record)| == VALIDATOR_RECORD_SIZE
    ensures DecodeValidator(EncodeValidator(record) + tail) == Ok(record)
  {
    var bytes := EncodeValidator(record) + tail;
    var vote, active := record.vote.bytes, LittleEndian(record.activeBalance, 8);
    var score, epoch, bump := LittleEndian(record.score, 4), LittleEndian(record.lastDeltaEpoch, 8),
      LittleEndian(record.bump, 1);
    assert bytes[..32] == vote && bytes[32..] == active + (score + (epoch + (bump + tail)));
    assert bytes[32..][..8] == active && bytes[32..][8..] == score + (epoch + (bump + tail));
    assert bytes[32..][8..][..4] == score && bytes[32..][8..][4..] == epoch + (bump + tail);
    assert bytes[32..][8..][4..][..8] == epoch && bytes[32..][8..][4..][8..] == bump + tail;
    assert bytes[32..][8..][4..][8..][..1] == bump;
    WidthLimits();
    IntegerRoundTrip(record.activeBalance, 8);
    IntegerRoundTrip(record.score, 4);
    IntegerRoundTrip(record.lastDeltaEpoch, 8);
    IntegerRoundTrip(record.bump, 1);
  }

  lemma ValidatorBytesRoundTrip(bytes: seq<byte>)
    ensures DecodeValidator(bytes).Ok? <==> VALIDATOR_RECORD_SIZE <= |bytes|
    ensures DecodeValidator(bytes).Ok? ==>
              StorableValidator(DecodeValidator(bytes).value)
              && EncodeValidator(DecodeValidator(bytes).value) == bytes[..VALIDATOR_RECORD_SIZE]
  {
    hide LittleEndian, FromLittleEndian;
    if VALIDATOR_RECORD_SIZE <= |bytes| {
      WidthLimits();
      BytesRoundTrip(bytes[32..40]);
      BytesRoundTrip(bytes[40..44]);
      BytesRoundTrip(bytes[44..52]);
      BytesRoundTrip(bytes[52..53]);
      assert bytes[32..][..8] == bytes[32..40] && bytes[32..][8..] == bytes[40..];
      assert bytes[40..][..4] == bytes[40..44] && bytes[40..][4..] == bytes[44..];
      assert bytes[44..][..8] == bytes[44..52] && bytes[44..][8..] == bytes[52..];
      assert bytes[52..][..1] == bytes[52..53];
      assert bytes[..32] + bytes[32..40] + bytes[40..44] + bytes[44..52] + bytes[52..53] == bytes[..53];
    }
  }

  lemma ValidatorCodecIsLawful()
    ensures Lawful(VALIDATOR_CODEC)
  {
    forall record, tail | StorableValidator(record)
      ensures |EncodeValidator(record)| == VALIDATOR_RECORD_SIZE
              && DecodeValidator(EncodeValidator(record) + tail) == Ok(record)
    {
      ValidatorRoundTrip(record, tail);
    }
  }
}
