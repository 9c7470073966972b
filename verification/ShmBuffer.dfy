// The ring buffer of plibsys/src/pshmbuffer.c. Each operation runs under the lock of the shared memory.

module ShmBuffer {
  type Byte = bv8

  /** Where byte `i` from position `pos` on lies in a ring of `size` slots. */
  function Slot(pos: nat, i: nat, size: nat): (s: nat)
    requires pos < size && i <= size
    ensures s < size && s == if pos + i < size then pos + i else pos + i - size
  {
    Wrapped(pos + i, size);
    (pos + i) % size
  }

  lemma Wrapped(x: nat, size: nat)
    requires x < 2 * size
    ensures x % size == if x < size then x else x - size
  {
  }

  /** `pp_shm_buffer_get_free_space`. */
  function FreeSpace(readPos: nat, writePos: nat, size: nat): int
    requires readPos < size && writePos < size
  {
    if writePos < readPos then readPos - writePos
    else if writePos > readPos then size - (writePos - readPos) - 1
    else size - 1
  }

  /** `pp_shm_buffer_get_used_space`. */
  function UsedSpace(readPos: nat, writePos: nat, size: nat): (n: nat)
    requires readPos < size && writePos < size
    ensures n < size && Slot(readPos, n, size) == writePos
  {
    if writePos > readPos then writePos - readPos
    else if writePos < readPos then size - (readPos - writePos)
    else 0
  }

  /** The bytes from `readPos` up to `writePos`, going round. */
  function Unread(data: seq<Byte>, readPos: nat, writePos: nat): (q: seq<Byte>)
    requires readPos < |data| && writePos < |data|
    ensures |q| == UsedSpace(readPos, writePos, |data|)
  {
    seq(UsedSpace(readPos, writePos, |data|),
        i requires 0 <= i < UsedSpace(readPos, writePos, |data|) => data[Slot(readPos, i, |data|)])
  }

  /** The free space is one too many exactly when the unread bytes wrap around. */
  lemma FreeSpaceIs(readPos: nat, writePos: nat, size: nat)
    requires readPos < size && writePos < size
    ensures FreeSpace(readPos, writePos, size) ==
              size - UsedSpace(readPos, writePos, size) - if writePos < readPos then 0 else 1
  {
  }

  /** A write of `len` bytes is accepted exactly when the queue has room for it, except for one length: what is left
      when the unread bytes wrap around. */
  lemma AcceptsRightlyIff(readPos: nat, writePos: nat, size: nat, len: nat)
    requires readPos < size && writePos < size
    ensures (len <= FreeSpace(readPos, writePos, size) <==> UsedSpace(readPos, writePos, size) + len < size)
            <==> !(writePos < readPos && len == readPos - writePos)
  {
    FreeSpaceIs(readPos, writePos, size);
  }

  function Least(a: nat, b: nat): nat { if a <= b then a else b }

  /** A count as the 32-bit signed answer of a read: it keeps the remainder modulo 2 to the 32. */
  function Narrowed(n: nat): (r: int)
    requires n < 0x1_0000_0000
    ensures -0x8000_0000 <= r < 0x8000_0000 && (n - r) % 0x1_0000_0000 == 0
  {
    if n < 0x8000_0000 then n else n - 0x1_0000_0000
  }

  class Ring {
    const data: array<Byte>
    var readPos: nat
    var writePos: nat

    /** A segment with room for at least two data bytes; the copy loops count with 32 bits. */
    ghost predicate Valid()
      reads this
    {
      2 <= data.Length < 0x1_0000_0000 && readPos < data.Length && writePos < data.Length
    }

    ghost function Queue(): seq<Byte>
      requires Valid()
      reads this, data
    {
      Unread(data[..], readPos, writePos)
    }

    /** `p_shm_buffer_new` on a fresh segment. */
    constructor (size: nat)
      requires 0 < size < 0xFFFF_FFFF
      ensures Valid() && fresh(data) && data.Length == size + 1 && Queue() == [] && readPos == 0
    {
      data := new Byte[size + 1](_ => 0);
      readPos, writePos := 0, 0;
    }

    /** `p_shm_buffer_read`: the answer -1 refuses the call, otherwise it is the number of bytes read, narrowed. */
    method Read(storage: array<Byte>, len: nat) returns (count: int)
      requires Valid() && len <= storage.Length && storage != data
      modifies this`readPos, storage
      ensures Valid() && data[..] == old(data[..])
      ensures len == 0 ==> count == -1
      ensures var q := old(Queue());
        var n := Least(|q|, len);
        && (0 < len ==> count == Narrowed(n))
        && storage[..] == q[..n] + old(storage[..])[n..]
        && Queue() == q[n..] && readPos == Slot(old(readPos), n, data.Length)
    {
      if len == 0 {
        return -1;
      }
      if readPos == writePos {
        return 0;
      }
      var available := UsedSpace(readPos, writePos, data.Length);
      var toCopy := if available <= len then available else len;
      for i := 0 to toCopy
        invariant readPos == old(readPos)
        invariant forall j :: 0 <= j < i ==> storage[j] == old(Queue())[j]
        invariant forall j :: i <= j < storage.Length ==> storage[j] == old(storage[j])
      {
        storage[i] := data[Slot(readPos, i, data.Length)];
      }
      ReadMoves(data[..], readPos, writePos, toCopy);
      readPos := Slot(readPos, toCopy, data.Length);
      return Narrowed(toCopy);
    }

    /** The copy loop of a write. */
    method CopyIn(bytes: seq<Byte>)
      requires Valid() && |bytes| <= data.Length
      modifies data
      ensures Filled(old(data[..]), data[..], writePos, bytes)
    {
      for i := 0 to |bytes|
        invariant Filled(old(data[..]), data[..], writePos, bytes[..i])
      {
        data[Slot(writePos, i, data.Length)] := bytes[i];
      }
      assert bytes[..|bytes|] == bytes;
    }

    /** `p_shm_buffer_write`: -1 refuses the call, 0 refuses the bytes, otherwise all of them are taken. A write that
        fills the last slot makes the ring look empty. */
    method Write(bytes: seq<Byte>) returns (count: int)
      requires Valid()
      modifies this`writePos, data
      ensures Valid() && readPos == old(readPos)
      ensures |bytes| == 0 ==> count == -1
      ensures 0 < |bytes| ==>
        count == if old(FreeSpace(readPos, writePos, data.Length)) < |bytes| then 0 else |bytes|
      ensures count <= 0 ==> data[..] == old(data[..]) && Queue() == old(Queue())
      ensures 0 < count ==>
        Queue() == if |old(Queue())| + |bytes| < data.Length then old(Queue()) + bytes else []
    {
      if |bytes| == 0 {
        return -1;
      }
      if FreeSpace(readPos, writePos, data.Length) < |bytes| {
        return 0;
      }
      FreeSpaceIs(readPos, writePos, data.Length);
      CopyIn(bytes);
      WriteMoves(old(data[..]), data[..], readPos, writePos, bytes);
      writePos := Slot(writePos, |bytes|, data.Length);
      return |bytes|;
    }

    /** `p_shm_buffer_clear`. */
    method Clear()
      requires Valid()
      modifies this, data
      ensures Valid() && Queue() == [] && readPos == 0
      ensures forall j :: 0 <= j < data.Length ==> data[j] == 0
    {
      for i := 0 to data.Length
        invariant forall j :: 0 <= j < i ==> data[j] == 0
      {
        data[i] := 0;
      }
      readPos, writePos := 0, 0;
    }
  }

  lemma ReadMoves(data: seq<Byte>, readPos: nat, writePos: nat, n: nat)
    requires readPos < |data| && writePos < |data| && n <= UsedSpace(readPos, writePos, |data|)
    ensures Unread(data, Slot(readPos, n, |data|), writePos) == Unread(data, readPos, writePos)[n..]
  {
  }

  /** `after` holds `bytes` from `pos` on and otherwise what `before` does. */
  ghost predicate Filled(before: seq<Byte>, after: seq<Byte>, pos: nat, bytes: seq<Byte>)
    requires pos < |before| && |bytes| <= |before|
  {
    && |after| == |before|
    && (forall i :: 0 <= i < |bytes| ==> after[Slot(pos, i, |before|)] == bytes[i])
    && (forall j :: 0 <= j < |before| && Distance(pos, j, |before|) >= |bytes| ==> after[j] == before[j])
  }

  /** How far slot `j` lies from `pos`, going round. */
  function Distance(pos: nat, j: nat, size: nat): nat
    requires pos < size && j < size
  {
    if pos <= j then j - pos else j + size - pos
  }

  lemma WriteMoves(before: seq<Byte>, after: seq<Byte>, readPos: nat, writePos: nat, bytes: seq<Byte>)
    requires readPos < |before| && writePos < |before| && 0 < |bytes|
    requires UsedSpace(readPos, writePos, |before|) + |bytes| <= |before|
    requires Filled(before, after, writePos, bytes)
    ensures Unread(after, readPos, Slot(writePos, |bytes|, |before|)) ==
      if UsedSpace(readPos, writePos, |before|) + |bytes| < |before| then Unread(before, readPos, writePos) + bytes
      else []
  {
    var q := Unread(before, readPos, writePos);
    var r := Unread(after, readPos, Slot(writePos, |bytes|, |before|));
    if |q| + |bytes| < |before| {
      forall i | 0 <= i < |q| + |bytes|
        ensures r[i] == (q + bytes)[i]
      {
        if i < |q| {
          assert Distance(writePos, Slot(readPos, i, |before|), |before|) >= |bytes|;
        } else {
          assert Slot(readPos, i, |before|) == Slot(writePos, i - |q|, |before|);
        }
      }
    }
  }

  // ----- whole runs -----

  datatype Op = WriteOp(bytes: seq<Byte>) | ReadOp(len: nat) | UsedOp | FreeOp | ClearOp

  datatype Answer = Count(n: int) | Got(n: int, bytes: seq<Byte>) | Cleared

  /** A bounded queue of bytes that takes a write as a whole or not at all. */
  function QueueStep(q: seq<Byte>, op: Op, size: nat): (seq<Byte>, Answer) {
    match op
    case WriteOp(b) =>
      if b == [] then (q, Count(-1))
      else if |q| + |b| < size then (q + b, Count(|b|))
      else (q, Count(0))
    case ReadOp(len) =>
      if len == 0 then (q, Got(-1, []))
      else
        var n := Least(|q|, len);
        (q[n..], Got(n, q[..n]))
    case UsedOp => (q, Count(|q|))
    case FreeOp => (q, Count(size - 1 - |q|))
    case ClearOp => ([], Cleared)
  }

  function QueueRun(ops: seq<Op>, size: nat): (seq<Byte>, seq<Answer>) {
    if ops == [] then ([], [])
    else
      var (q, answers) := QueueRun(ops[..|ops| - 1], size);
      var (r, a) := QueueStep(q, ops[|ops| - 1], size);
      (r, answers + [a])
  }

  /** Where the reader stands in a ring of `size` slots after one more operation. */
  function PositionStep(pos: nat, q: seq<Byte>, op: Op, size: nat): (p: nat)
    requires pos < size && |q| < size
    ensures p < size
  {
    match op
    case ReadOp(len) => Slot(pos, Least(|q|, len), size)
    case ClearOp => 0
    case _ => pos
  }

  function Position(ops: seq<Op>, size: nat): (p: nat)
    requires 0 < size
    ensures p < size && |QueueRun(ops, size).0| < size
  {
    if ops == [] then 0
    else
      var before := ops[..|ops| - 1];
      PositionStep(Position(before, size), QueueRun(before, size).0, ops[|ops| - 1], size)
  }

  /** A write of exactly as many bytes as there are slots without unread bytes, which go round the end of the ring. */
  predicate TakesTheLast(pos: nat, q: seq<Byte>, op: Op, size: nat) {
    op.WriteOp? && |q| + |op.bytes| == size && size <= pos + |q|
  }

  /** A read of more bytes than its answer can say. */
  predicate ReadsTooMany(q: seq<Byte>, op: Op) { op.ReadOp? && 0x8000_0000 <= Least(|q|, op.len) }

  /** A question for the free space while the unread bytes go round the end of the ring. */
  predicate AsksWrapped(pos: nat, q: seq<Byte>, op: Op, size: nat) { op.FreeOp? && size <= pos + |q| }

  predicate AtFault(pos: nat, q: seq<Byte>, op: Op, size: nat) {
    TakesTheLast(pos, q, op, size) || ReadsTooMany(q, op) || AsksWrapped(pos, q, op, size)
  }

  ghost predicate NeverAtFault(ops: seq<Op>, size: nat)
    requires 0 < size
  {
    forall i :: 0 <= i < |ops| ==> !AtFault(Position(ops[..i], size), QueueRun(ops[..i], size).0, ops[i], size)
  }

  /** One operation on a ring. A write that takes the last slot is accepted, where a queue would refuse it, and
      loses everything unread. A read of too many bytes hands them over and answers a negative number. The free space
      of a wrapped ring is told one too large. */
  method Perform(ring: Ring, op: Op) returns (answer: Answer)
    requires ring.Valid()
    modifies ring, ring.data
    ensures ring.Valid()
    ensures var size, pos, q := ring.data.Length, old(ring.readPos), old(ring.Queue());
      && (AtFault(pos, q, op, size) <==> answer != QueueStep(q, op, size).1)
      && (!TakesTheLast(pos, q, op, size) ==>
            ring.Queue() == QueueStep(q, op, size).0 && ring.readPos == PositionStep(pos, q, op, size))
      && (TakesTheLast(pos, q, op, size) ==> ring.Queue() == [] && answer == Count(|op.bytes|))
      && (ReadsTooMany(q, op) ==> answer.Got? && answer.n < 0)
      && (AsksWrapped(pos, q, op, size) ==> answer == Count(size - |q|))
  {
    hide Slot, Unread;
    match op {
      case WriteOp(bytes) =>
        FreeSpaceIs(ring.readPos, ring.writePos, ring.data.Length);
        var n := ring.Write(bytes);
        answer := Count(n);
      case ReadOp(len) =>
        answer := PerformRead(ring, len);
      case UsedOp =>
        answer := Count(UsedSpace(ring.readPos, ring.writePos, ring.data.Length));
      case FreeOp =>
        FreeSpaceIs(ring.readPos, ring.writePos, ring.data.Length);
        answer := Count(FreeSpace(ring.readPos, ring.writePos, ring.data.Length));
      case ClearOp =>
        ring.Clear();
        answer := Cleared;
    }
  }

  method PerformRead(ring: Ring, len: nat) returns (answer: Answer)
    requires ring.Valid()
    modifies ring`readPos
    ensures ring.Valid()
    ensures var q := old(ring.Queue());
      var n := Least(|q|, len);
      && ring.Queue() == q[n..] && ring.readPos == Slot(old(ring.readPos), n, ring.data.Length)
      && answer == if len == 0 then Got(-1, []) else Got(Narrowed(n), if Narrowed(n) <= 0 then [] else q[..n])
  {
    var storage := new Byte[len];
    var n := ring.Read(storage, len);
    answer := Got(n, if n <= 0 then [] else storage[..n]);
  }

  lemma OneMore(ops: seq<Op>, i: nat, size: nat)
    requires 0 < size && i < |ops|
    ensures var (q, answers) := QueueRun(ops[..i], size);
      && QueueRun(ops[..i + 1], size) == (QueueStep(q, ops[i], size).0, answers + [QueueStep(q, ops[i], size).1])
      && Position(ops[..i + 1], size) == PositionStep(Position(ops[..i], size), q, ops[i], size)
  {
    hide QueueStep, PositionStep;
    assert ops[..i + 1][..i] == ops[..i] && |ops[..i + 1]| == i + 1;
  }

  lemma OneMoreFault(ops: seq<Op>, i: nat, size: nat)
    requires 0 < size && i < |ops|
    ensures NeverAtFault(ops[..i + 1], size) <==>
      NeverAtFault(ops[..i], size) && !AtFault(Position(ops[..i], size), QueueRun(ops[..i], size).0, ops[i], size)
  {
    hide QueueRun, Position, AtFault;
    assert forall j | 0 <= j <= i :: ops[..i + 1][..j] == ops[..j];
    assert forall j | 0 <= j <= i :: ops[..i][..j] == ops[..j];
    var n := ops[..i + 1];
    assert n[i] == ops[i] && n[..i] == ops[..i];
  }

  lemma LastIsFault(pos: nat, q: seq<Byte>, op: Op, size: nat)
    ensures TakesTheLast(pos, q, op, size) ==> AtFault(pos, q, op, size)
  {
  }

  /** A run of the ring answers as a queue does exactly when no read of it takes 2 to the 31 bytes or more and, while
      the unread bytes go round, no write takes the last slot and nobody asks for the free space: then every byte
      written is read once, in order, and nothing unread is overwritten. */
  method Replay(ops: seq<Op>, size: nat) returns (answers: seq<Answer>)
    requires 0 < size < 0xFFFF_FFFF
    ensures answers == QueueRun(ops, size + 1).1 <==> NeverAtFault(ops, size + 1)
  {
    hide QueueStep, PositionStep, TakesTheLast, ReadsTooMany, AsksWrapped;
    var ring := new Ring(size);
    answers := [];
    for i := 0 to |ops|
      invariant ring.Valid() && ring.data.Length == size + 1 && fresh(ring) && fresh(ring.data)
      invariant |answers| == i == |QueueRun(ops[..i], size + 1).1|
      invariant if NeverAtFault(ops[..i], size + 1) then
          && (ring.Queue(), answers) == QueueRun(ops[..i], size + 1)
          && ring.readPos == Position(ops[..i], size + 1)
        else
          answers != QueueRun(ops[..i], size + 1).1
    {
      OneMore(ops, i, size + 1);
      OneMoreFault(ops, i, size + 1);
      LastIsFault(ring.readPos, ring.Queue(), ops[i], size + 1);
      ghost var before, expected := answers, QueueRun(ops[..i], size + 1).1;
      var answer := Perform(ring, ops[i]);
      answers := answers + [answer];
      assert answers[..i] == before && answers[i] == answer;
      assert QueueRun(ops[..i + 1], size + 1).1[..i] == expected;
    }
    assert ops[..|ops|] == ops;
  }

  /** What a read of 2 to the 31 bytes answers: the bytes go over, and the answer is negative. */
  method ReadTooMany() returns (accepted: int, answer: int, used: nat)
    ensures accepted == 0x8000_0000 && answer == -0x8000_0000 && used == 0
  {
    var ring := new Ring(0x8000_0000);
    var storage := new Byte[0x8000_0000];
    accepted := ring.Write(seq(0x8000_0000, _ => 7));
    hide Slot, Unread;
    answer := ring.Read(storage, 0x8000_0000);
    used := UsedSpace(ring.readPos, ring.writePos, ring.data.Length);
    assert |ring.Queue()| == used;
  }

  /** The condition is needed: a ring of four slots takes 3 bytes, gives 2 back and takes 2 more; the free space is
      then reported as 1, and writing that byte loses all four. */
  method LoseToTheBrim() returns (free: int, accepted: int, used: nat)
    ensures free == 1 && accepted == 1 && used == 0
  {
    var ring := new Ring(3);
    var storage := new Byte[2];
    var n := ring.Write([1, 2, 3]);
    assert ring.writePos == 3;
    n := ring.Read(storage, 2);
    assert ring.readPos == 2;
    n := ring.Write([4, 5]);
    assert |ring.Queue()| == 3 && ring.readPos == 2 && ring.writePos == 1;
    free := FreeSpace(ring.readPos, ring.writePos, ring.data.Length);
    accepted := ring.Write([6]);
    assert ring.Queue() == [];
    used := UsedSpace(ring.readPos, ring.writePos, ring.data.Length);
  }
}
