/** The list kept in an account's bytes: after an 8-byte discriminator come slots of a fixed size, the
    first `count` of them in use. Every operation on the bytes does to the slots what the operation on
    a sequence does to its items, and a run of operations with any lawful record form, in slots at least
    as long as the form, answers like the same run on a sequence. */
module ByteList {
  import opened Results
  import opened Calc
  import opened Sums
  import opened Records
  import opened State
  import opened Borsh

  const DISCRIMINATOR_SIZE: nat := 8

  // ---------- sizes ----------

  // How many items of a size an account of a length has room for.
  function CapacityOf(length: nat, itemSize: nat): Result<nat> {
    if length < DISCRIMINATOR_SIZE then Err(AccountDataTooSmall)
    else if length - DISCRIMINATOR_SIZE >= U32_LIMIT then Err(CalculationFailure)
    else if itemSize == 0 then Ok(U32_LIMIT - 1)
    else Ok((length - DISCRIMINATOR_SIZE) / itemSize)
  }

  // bytes_for
  function BytesFor(itemSize: nat, count: nat): Result<nat> {
    U32(DISCRIMINATOR_SIZE + count * itemSize)
  }

  /** An account of the length asked for a count has room for exactly that count. */
  lemma RoomAsAsked(itemSize: nat, count: nat)
    requires 0 < itemSize && BytesFor(itemSize, count).Ok?
    ensures CapacityOf(BytesFor(itemSize, count).value, itemSize) == Ok(count)
  {
    QuotientIs(count * itemSize, itemSize, count);
  }

  /** Slots within the capacity lie within the account, and their offsets within u32. */
  lemma SlotFits(length: nat, itemSize: nat, i: nat)
    requires CapacityOf(length, itemSize).Ok? && i < CapacityOf(length, itemSize).value
    ensures DISCRIMINATOR_SIZE + i * itemSize + itemSize <= length
    ensures i * itemSize < U32_LIMIT
  {
    if itemSize > 0 {
      var room := length - DISCRIMINATOR_SIZE;
      DivMod(room, itemSize);
      MulMono(i + 1, room / itemSize, itemSize);
      assert (i + 1) * itemSize == i * itemSize + itemSize;
    }
  }

  // ---------- slots ----------

  function Room(length: nat, itemSize: nat): nat {
    var capacity := CapacityOf(length, itemSize);
    if capacity.Ok? then capacity.value else 0
  }

  function Start(itemSize: nat, i: nat): nat {
    DISCRIMINATOR_SIZE + i * itemSize
  }

  function Slot(data: seq<byte>, itemSize: nat, i: nat): (slot: seq<byte>)
    requires i < Room(|data|, itemSize)
    ensures |slot| == itemSize
  {
    SlotFits(|data|, itemSize, i);
    data[Start(itemSize, i)..Start(itemSize, i) + itemSize]
  }

  function Slots(data: seq<byte>, itemSize: nat): seq<seq<byte>> {
    seq(Room(|data|, itemSize), i requires 0 <= i < Room(|data|, itemSize) => Slot(data, itemSize, i))
  }

  // Bytes written over others, from an offset on.
  function Patch(data: seq<byte>, at: nat, bytes: seq<byte>): seq<byte>
    requires at + |bytes| <= |data|
  {
    data[..at] + bytes + data[at + |bytes|..]
  }

  // Bytes written to the front of a slot; the rest of it keeps what was there.
  function Overwrite(slot: seq<byte>, bytes: seq<byte>): seq<byte>
    requires |bytes| <= |slot|
  {
    bytes + slot[|bytes|..]
  }

  lemma WholeSlot(slot: seq<byte>, bytes: seq<byte>)
    requires |bytes| == |slot|
    ensures Overwrite(slot, bytes) == bytes
  {
  }

  lemma SlotsApart(itemSize: nat, i: nat, j: nat)
    requires i != j
    ensures i * itemSize + itemSize <= j * itemSize || j * itemSize + itemSize <= i * itemSize
  {
    if i < j {
      MulMono(i + 1, j, itemSize);
      assert (i + 1) * itemSize == i * itemSize + itemSize;
    } else {
      MulMono(j + 1, i, itemSize);
      assert (j + 1) * itemSize == j * itemSize + itemSize;
    }
  }

  /** A stretch of bytes apart from the patch is as before. */
  lemma PatchElsewhere(data: seq<byte>, at: nat, bytes: seq<byte>, from: nat, to: nat)
    requires at + |bytes| <= |data| && from <= to <= |data|
    requires to <= at || at + |bytes| <= from
    ensures Patch(data, at, bytes)[from..to] == data[from..to]
  {
  }

  lemma PatchInside(data: seq<byte>, at: nat, bytes: seq<byte>, to: nat)
    requires at + |bytes| <= to <= |data|
    ensures Patch(data, at, bytes)[at..to] == Overwrite(data[at..to], bytes)
  {
  }

  lemma OtherSlot(data: seq<byte>, itemSize: nat, i: nat, bytes: seq<byte>, j: nat)
    requires i < Room(|data|, itemSize) && |bytes| <= itemSize && j < Room(|data|, itemSize) && j != i
    requires Start(itemSize, i) + |bytes| <= |data|
    ensures Slot(Patch(data, Start(itemSize, i), bytes), itemSize, j) == Slot(data, itemSize, j)
  {
    SlotFits(|data|, itemSize, j);
    SlotsApart(itemSize, i, j);
    PatchElsewhere(data, Start(itemSize, i), bytes, Start(itemSize, j), Start(itemSize, j) + itemSize);
  }

  /** Writing to the front of one slot updates that slot and no other. */
  lemma SlotsPatched(data: seq<byte>, itemSize: nat, i: nat, bytes: seq<byte>)
    requires i < Room(|data|, itemSize) && |bytes| <= itemSize
    ensures Start(itemSize, i) + |bytes| <= |data|
    ensures var slots := Slots(data, itemSize);
            Slots(Patch(data, Start(itemSize, i), bytes), itemSize) == slots[i := Overwrite(slots[i], bytes)]
  {
    SlotFits(|data|, itemSize, i);
    PatchInside(data, Start(itemSize, i), bytes, Start(itemSize, i) + itemSize);
    forall j | 0 <= j < Room(|data|, itemSize) && j != i
      ensures Slot(Patch(data, Start(itemSize, i), bytes), itemSize, j) == Slot(data, itemSize, j)
    {
      OtherSlot(data, itemSize, i, bytes, j);
    }
  }

  /** Neither the discriminator nor what follows the last slot differs. */
  ghost predicate SameMargins(data: seq<byte>, itemSize: nat, data': seq<byte>) {
    && |data'| == |data|
    && (DISCRIMINATOR_SIZE <= |data| ==> data'[..DISCRIMINATOR_SIZE] == data[..DISCRIMINATOR_SIZE])
    && var end := Start(itemSize, Room(|data|, itemSize));
       (end <= |data| ==> data'[end..] == data[end..])
  }

  lemma PatchKeepsMargins(data: seq<byte>, itemSize: nat, i: nat, bytes: seq<byte>)
    requires i < Room(|data|, itemSize) && |bytes| <= itemSize
    ensures Start(itemSize, i) + |bytes| <= |data|
    ensures SameMargins(data, itemSize, Patch(data, Start(itemSize, i), bytes))
  {
    SlotFits(|data|, itemSize, i);
    var end := Start(itemSize, Room(|data|, itemSize));
    MulMono(i + 1, Room(|data|, itemSize), itemSize);
    assert (i + 1) * itemSize == i * itemSize + itemSize;
    PatchElsewhere(data, Start(itemSize, i), bytes, 0, DISCRIMINATOR_SIZE);
    if end <= |data| {
      PatchElsewhere(data, Start(itemSize, i), bytes, end, |data|);
    }
  }

  // ---------- operations on slots ----------

  /** What the operations see of an account: all its slots, and how many are in use. */
  datatype Image = Image(capacity: Result<nat>, count: nat, slots: seq<seq<byte>>)

  ghost predicate WellFormed(image: Image) {
    && image.count <= |image.slots|
    && (image.count > 0 ==> image.capacity.Ok?)
    && |image.slots| == if image.capacity.Ok? then image.capacity.value else 0
  }

  function WriteSlot(image: Image, i: nat, bytes: seq<byte>): Result<Image>
    requires i < |image.slots|
  {
    if |bytes| > |image.slots[i]| then Err(BorshIoError) else
    Ok(image.(slots := image.slots[i := Overwrite(image.slots[i], bytes)]))
  }

  function GetSlot(image: Image, index: nat): Result<seq<byte>>
    requires image.count <= |image.slots|
  {
    if index < image.count then Ok(image.slots[index]) else Err(ListIndexOutOfBounds)
  }

  function SetSlot(image: Image, index: nat, bytes: seq<byte>): Result<Image>
    requires image.count <= |image.slots|
  {
    if index >= image.count then Err(ListIndexOutOfBounds) else
    WriteSlot(image, index, bytes)
  }

  function PushSlot(image: Image, bytes: seq<byte>): Result<Image>
    requires WellFormed(image)
  {
    var capacity :- image.capacity;
    :- Need(image.count < capacity, ListOverflow);
    var written :- WriteSlot(image, image.count, bytes);
    Ok(written.(count := image.count + 1))
  }

  function RemoveSlot(image: Image, index: nat): Result<Image>
    requires WellFormed(image)
  {
    if index >= image.count then Err(ListIndexOutOfBounds) else
    var last := image.count - 1;
    Ok(image.(count := last, slots := if index == last then image.slots else image.slots[index := image.slots[last]]))
  }

  // ---------- operations on items ----------

  datatype Op<I> = Get(index: nat) | Set(index: nat, item: I) | Push(item: I) | Remove(index: nat)

  datatype Reply<I> = Done | Found(item: I) | Failed(error: Error)

  /** An operation on the bytes, with the items in a given form. */
  function Perform<I>(image: Image, codec: Codec<I>, op: Op<I>): (Image, Reply<I>)
    requires WellFormed(image)
  {
    match op
    case Get(index) =>
      (match GetSlot(image, index)
       case Err(error) => (image, Failed(error))
       case Ok(slot) =>
         var item := codec.decode(slot); (image, if item.Ok? then Found(item.value) else Failed(item.error)))
    case Set(index, item) => Settle(image, SetSlot(image, index, codec.encode(item)))
    case Push(item) => Settle(image, PushSlot(image, codec.encode(item)))
    case Remove(index) => Settle(image, RemoveSlot(image, index))
  }

  function Settle<I>(image: Image, r: Result<Image>): (Image, Reply<I>) {
    if r.Ok? then (r.value, Done) else (image, Failed(r.error))
  }

  /** The same operation on a sequence with room for `capacity` items. */
  function Ideal<I>(list: seq<I>, capacity: nat, op: Op<I>): (seq<I>, Reply<I>) {
    match op
    case Get(index) => (list, if index < |list| then Found(list[index]) else Failed(ListIndexOutOfBounds))
    case Set(index, item) =>
      if index < |list| then (list[index := item], Done) else (list, Failed(ListIndexOutOfBounds))
    case Push(item) => if |list| < capacity then (list + [item], Done) else (list, Failed(ListOverflow))
    case Remove(index) =>
      if index < |list| then (SwapRemove(list, index), Done) else (list, Failed(ListIndexOutOfBounds))
  }

  function PerformAll<I>(image: Image, codec: Codec<I>, ops: seq<Op<I>>): (Image, seq<Reply<I>>)
    requires WellFormed(image)
    ensures WellFormed(PerformAll(image, codec, ops).0)
  {
    if ops == [] then (image, [])
    else
      var (before, replies) := PerformAll(image, codec, ops[..|ops| - 1]);
      var (after, reply) := Perform(before, codec, ops[|ops| - 1]);
      (after, replies + [reply])
  }

  function IdealAll<I>(list: seq<I>, capacity: nat, ops: seq<Op<I>>): (seq<I>, seq<Reply<I>>) {
    if ops == [] then (list, [])
    else
      var (before, replies) := IdealAll(list, capacity, ops[..|ops| - 1]);
      var (after, reply) := Ideal(before, capacity, ops[|ops| - 1]);
      (after, replies + [reply])
  }

  // ---------- refinement ----------

  /** The slots in use read as the list, and every slot has room for an item. */
  ghost predicate Holds<I(!new)>(image: Image, codec: Codec<I>, list: seq<I>) {
    && WellFormed(image) && image.capacity.Ok?
    && image.count == |list|
    && (forall i :: 0 <= i < |image.slots| ==> codec.size <= |image.slots[i]|)
    && forall i :: 0 <= i < |list| ==> codec.decode(image.slots[i]) == Ok(list[i])
  }

  ghost predicate StorableOp<I(!new)>(codec: Codec<I>, op: Op<I>) {
    (op.Set? || op.Push?) ==> codec.storable(op.item)
  }

  lemma WrittenReadsBack<I(!new)>(image: Image, codec: Codec<I>, i: nat, item: I)
    requires Lawful(codec) && codec.storable(item)
    requires i < |image.slots| && codec.size <= |image.slots[i]|
    ensures var r := WriteSlot(image, i, codec.encode(item));
            && r.Ok? && |r.value.slots| == |image.slots| && |r.value.slots[i]| == |image.slots[i]|
            && codec.decode(r.value.slots[i]) == Ok(item)
            && r.value == image.(slots := image.slots[i := r.value.slots[i]])
  {
    assert codec.decode(codec.encode(item) + image.slots[i][codec.size..]) == Ok(item);
  }

  /** One operation: the same answer, and afterwards the slots in use read as the resulting list. */
  lemma OperationRefines<I(!new)>(image: Image, codec: Codec<I>, list: seq<I>, op: Op<I>)
    requires Lawful(codec) && StorableOp(codec, op) && Holds(image, codec, list)
    ensures var after, ideal := Perform(image, codec, op), Ideal(list, image.capacity.value, op);
            after.1 == ideal.1 && after.0.capacity == image.capacity && Holds(after.0, codec, ideal.0)
  {
    if op.Set? && op.index < |list| {
      WrittenReadsBack(image, codec, op.index, op.item);
    } else if op.Push? && |list| < image.capacity.value {
      WrittenReadsBack(image, codec, |list|, op.item);
    }
  }

  /** Any run of operations on the bytes answers exactly like the same run on a sequence, and ends with
      the bytes reading as the sequence it ends with. */
  lemma {:induction false} RunRefines<I(!new)>(image: Image, codec: Codec<I>, list: seq<I>, ops: seq<Op<I>>)
    requires Lawful(codec) && Holds(image, codec, list)
    requires forall k :: 0 <= k < |ops| ==> StorableOp(codec, ops[k])
    ensures var after, ideal := PerformAll(image, codec, ops), IdealAll(list, image.capacity.value, ops);
            after.1 == ideal.1 && after.0.capacity == image.capacity && Holds(after.0, codec, ideal.0)
  {
    if ops != [] {
      var most := ops[..|ops| - 1];
      RunRefines(image, codec, list, most);
      OperationRefines(PerformAll(image, codec, most).0, codec, IdealAll(list, image.capacity.value, most).0,
                       ops[|ops| - 1]);
    }
  }

  /** An account before its first item. */
  function Empty(data: seq<byte>, itemSize: nat): Image {
    Image(CapacityOf(|data|, itemSize), 0, Slots(data, itemSize))
  }

  /** From an account without items on, with at least as much space for each item as it takes. */
  lemma ListRefines<I(!new)>(data: seq<byte>, itemSize: nat, codec: Codec<I>, ops: seq<Op<I>>)
    requires Lawful(codec) && CapacityOf(|data|, itemSize).Ok? && codec.size <= itemSize
    requires forall k :: 0 <= k < |ops| ==> StorableOp(codec, ops[k])
    ensures var image, capacity := Empty(data, itemSize), CapacityOf(|data|, itemSize).value;
            && PerformAll(image, codec, ops).1 == IdealAll([], capacity, ops).1
            && Holds(PerformAll(image, codec, ops).0, codec, IdealAll([], capacity, ops).0)
  {
    RunRefines(Empty(data, itemSize), codec, [], ops);
  }

  /** So a list of stake records behaves as a sequence from its creation on, and so does one of validator
      records, also when more space is kept for each record than it takes. */
  lemma StakeListRefines(data: seq<byte>, itemSize: nat, ops: seq<Op<StakeRecord>>)
    requires CapacityOf(|data|, itemSize).Ok? && STAKE_CODEC.size <= itemSize
    requires forall k :: 0 <= k < |ops| ==> StorableOp(STAKE_CODEC, ops[k])
    ensures var image, capacity := Empty(data, itemSize), CapacityOf(|data|, itemSize).value;
            && PerformAll(image, STAKE_CODEC, ops).1 == IdealAll([], capacity, ops).1
            && Holds(PerformAll(image, STAKE_CODEC, ops).0, STAKE_CODEC, IdealAll([], capacity, ops).0)
  {
    StakeCodecIsLawful();
    ListRefines(data, itemSize, STAKE_CODEC, ops);
  }

  lemma ValidatorListRefines(data: seq<byte>, itemSize: nat, ops: seq<Op<ValidatorRecord>>)
    requires CapacityOf(|data|, itemSize).Ok? && VALIDATOR_CODEC.size <= itemSize
    requires forall k :: 0 <= k < |ops| ==> StorableOp(VALIDATOR_CODEC, ops[k])
    ensures var image, capacity := Empty(data, itemSize), CapacityOf(|data|, itemSize).value;
            && PerformAll(image, VALIDATOR_CODEC, ops).1 == IdealAll([], capacity, ops).1
            && Holds(PerformAll(image, VALIDATOR_CODEC, ops).0, VALIDATOR_CODEC, IdealAll([], capacity, ops).0)
  {
    ValidatorCodecIsLawful();
    ListRefines(data, itemSize, VALIDATOR_CODEC, ops);
  }

  // ---------- the account ----------

  /** The list over the bytes of its account. */
  class List {
    const itemSize: nat
    const data: array<byte>
    var count: nat

    constructor (itemSize: nat, data: array<byte>)
      ensures this.itemSize == itemSize && this.data == data && count == 0
    {
      this.itemSize, this.data, count := itemSize, data, 0;
    }

    ghost predicate Valid()
      reads this
    {
      count <= Room(data.Length, itemSize)
    }

    ghost function View(): (image: Image)
      requires Valid()
      reads this, data
      ensures WellFormed(image)
    {
      Image(CapacityOf(data.Length, itemSize), count, Slots(data[..], itemSize))
    }

    // Copies bytes into the account, one by one.
    method CopyIn(at: nat, bytes: seq<byte>)
      requires at + |bytes| <= data.Length
      modifies data
      ensures data[..] == Patch(old(data[..]), at, bytes)
    {
      var k := 0;
      while k < |bytes|
        invariant k <= |bytes|
        invariant data[..] == Patch(old(data[..]), at, bytes[..k])
      {
        data[at + k] := bytes[k];
        k := k + 1;
      }
      assert bytes[..k] == bytes;
    }

    /** Marks a zeroed account as a list; an account that is marked already is refused. */
    method InitAccount(discriminator: seq<byte>) returns (r: Outcome)
      requires |discriminator| == DISCRIMINATOR_SIZE
      modifies data
      ensures data.Length < DISCRIMINATOR_SIZE ==> r == Fail(DiscriminatorNotFound)
      ensures DISCRIMINATOR_SIZE <= data.Length ==>
                r == Need(old(data[..DISCRIMINATOR_SIZE]) == [0, 0, 0, 0, 0, 0, 0, 0], DiscriminatorAlreadySet)
      ensures data[..] == if r.Pass? then discriminator + old(data[DISCRIMINATOR_SIZE..]) else old(data[..])
    {
      if data.Length < DISCRIMINATOR_SIZE {
        return Fail(DiscriminatorNotFound);
      }
      if data[..DISCRIMINATOR_SIZE] != [0, 0, 0, 0, 0, 0, 0, 0] {
        return Fail(DiscriminatorAlreadySet);
      }
      CopyIn(0, discriminator);
      return Pass;
    }

    // Writes bytes to the front of a slot until they end or the slot does.
    method Write(i: nat, bytes: seq<byte>) returns (r: Outcome)
      requires i < Room(data.Length, itemSize)
      modifies data
      ensures r == Need(|bytes| <= itemSize, BorshIoError)
      ensures SameMargins(old(data[..]), itemSize, data[..])
      ensures r.Pass? ==>
                var slots := Slots(old(data[..]), itemSize);
                Slots(data[..], itemSize) == slots[i := Overwrite(slots[i], bytes)]
    {
      SlotFits(data.Length, itemSize, i);
      var written := if |bytes| <= itemSize then bytes else bytes[..itemSize];
      SlotsPatched(data[..], itemSize, i, written);
      PatchKeepsMargins(data[..], itemSize, i, written);
      CopyIn(Start(itemSize, i), written);
      return Need(|bytes| <= itemSize, BorshIoError);
    }

    method Read<I>(index: nat, codec: Codec<I>) returns (r: Reply<I>)
      requires Valid()
      ensures r == Perform(View(), codec, Get(index)).1
    {
      if index >= count {
        return Failed(ListIndexOutOfBounds);
      }
      SlotFits(data.Length, itemSize, index);
      var start := Start(itemSize, index);
      var item := codec.decode(data[start..start + itemSize]);
      assert data[start..start + itemSize] == Slot(data[..], itemSize, index);
      return if item.Ok? then Found(item.value) else Failed(item.error);
    }

    method Set<I>(index: nat, codec: Codec<I>, item: I) returns (r: Reply<I>)
      requires Valid()
      modifies data
      ensures Valid() && SameMargins(old(data[..]), itemSize, data[..])
      ensures var after := Perform(old(View()), codec, Op.Set(index, item));
              r == after.1 && (r != Failed(BorshIoError) ==> View() == after.0)
    {
      if index >= count {
        return Failed(ListIndexOutOfBounds);
      }
      var written := Write(index, codec.encode(item));
      return if written.Pass? then Done else Failed(written.error);
    }

    method Push<I>(codec: Codec<I>, item: I) returns (r: Reply<I>)
      requires Valid()
      modifies this`count, data
      ensures Valid() && SameMargins(old(data[..]), itemSize, data[..])
      ensures var after := Perform(old(View()), codec, Op.Push(item));
              r == after.1 && (r != Failed(BorshIoError) ==> View() == after.0)
    {
      var capacity := CapacityOf(data.Length, itemSize);
      if capacity.Err? {
        return Failed(capacity.error);
      }
      if count >= capacity.value {
        return Failed(ListOverflow);
      }
      var written := Write(count, codec.encode(item));
      if written.Fail? {
        return Failed(written.error);
      }
      count := count + 1;
      return Done;
    }

    method Remove(index: nat) returns (r: Outcome)
      requires Valid()
      modifies this`count, data
      ensures Valid() && SameMargins(old(data[..]), itemSize, data[..])
      ensures match RemoveSlot(old(View()), index)
              case Ok(image) => r == Pass && View() == image
              case Err(error) => r == Fail(error) && View() == old(View())
    {
      if index >= count {
        return Fail(ListIndexOutOfBounds);
      }
      count := count - 1;
      if index != count {
        MoveSlot(count, index);
      }
      return Pass;
    }

    // Copies the bytes of one slot over another.
    method MoveSlot(from: nat, to: nat)
      requires from < Room(data.Length, itemSize) && to < Room(data.Length, itemSize)
      modifies data
      ensures SameMargins(old(data[..]), itemSize, data[..])
      ensures var slots := Slots(old(data[..]), itemSize);
              Slots(data[..], itemSize) == slots[to := slots[from]]
    {
      SlotFits(data.Length, itemSize, from);
      var bytes := data[Start(itemSize, from)..Start(itemSize, from) + itemSize];
      assert bytes == Slot(data[..], itemSize, from);
      WholeSlot(Slot(data[..], itemSize, to), bytes);
      var _ := Write(to, bytes);
    }
  }
}
