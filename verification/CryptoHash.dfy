// The hash handle of plibsys/src/pcryptohash.c over the SHA-512 and SHA-384 contexts.

module CryptoHash {
  import opened Sha512Standard
  import opened Sha512Context
  import opened Words64

  // ----- hexadecimal -----

  const HEX_DIGITS: string := "0123456789abcdef"

  function HexDigit(n: bv8): char
    requires n < 16
  {
    HEX_DIGITS[n as int]
  }

  function HighNibble(b: Byte): (n: bv8)
    ensures n < 16
  {
    (b >> 4) & 0x0F
  }

  function LowNibble(b: Byte): (n: bv8)
    ensures n < 16
  {
    b & 0x0F
  }

  function Hex(bytes: seq<Byte>): (s: string)
    ensures |s| == 2 * |bytes|
  {
    if bytes == [] then ""
    else
      var n := |bytes| - 1;
      Hex(bytes[..n]) + [HexDigit(HighNibble(bytes[n])), HexDigit(LowNibble(bytes[n]))]
  }

  /** `pp_crypto_hash_digest_to_hex`. */
  method DigestToHex(digest: seq<Byte>, out: array<char>)
    requires 2 * |digest| <= out.Length
    modifies out
    ensures out[..2 * |digest|] == Hex(digest)
  {
    for i := 0 to |digest|
      invariant out[..2 * i] == Hex(digest[..i])
    {
      out[2 * i] := HexDigit(HighNibble(digest[i]));
      out[2 * i + 1] := HexDigit(LowNibble(digest[i]));
      assert digest[..i + 1][..i] == digest[..i];
      assert out[..2 * i + 2] == out[..2 * i] + [out[2 * i], out[2 * i + 1]];
    }
    assert digest[..|digest|] == digest;
  }

  /** The number that a lower-case hexadecimal digit denotes; 16 for any other character. */
  function DigitValue(c: char): nat {
    if '0' <= c <= '9' then c as int - '0' as int else if 'a' <= c <= 'f' then 10 + c as int - 'a' as int else 16
  }

  lemma DigitsAre(i: nat)
    requires i < 16
    ensures DigitValue(HEX_DIGITS[i]) == i
  {
  }

  lemma NibblesAre(b: Byte)
    ensures 16 * (HighNibble(b) as int) + LowNibble(b) as int == b as int
  {
  }

  lemma ByteShows(b: Byte)
    ensures DigitValue(HexDigit(HighNibble(b))) < 16 && DigitValue(HexDigit(LowNibble(b))) < 16
    ensures 16 * DigitValue(HexDigit(HighNibble(b))) + DigitValue(HexDigit(LowNibble(b))) == b as int
  {
    NibblesAre(b);
    DigitsAre(HighNibble(b) as int);
    DigitsAre(LowNibble(b) as int);
    hide DigitValue, HighNibble, LowNibble;
  }

  /** Each two characters are lower-case digits that denote a byte. */
  lemma {:induction false} HexShows(bytes: seq<Byte>, i: nat)
    requires i < |bytes|
    ensures var s := Hex(bytes);
      && DigitValue(s[2 * i]) < 16 && DigitValue(s[2 * i + 1]) < 16
      && 16 * DigitValue(s[2 * i]) + DigitValue(s[2 * i + 1]) == bytes[i] as int
  {
    var n := |bytes| - 1;
    hide DigitValue, HexDigit, HighNibble, LowNibble;
    if i < n {
      HexShows(bytes[..n], i);
    } else {
      ByteShows(bytes[n]);
    }
  }

  /** The text determines the digest. */
  lemma HexDecides(a: seq<Byte>, b: seq<Byte>)
    requires Hex(a) == Hex(b)
    ensures a == b
  {
    hide Hex, DigitValue;
    assert 2 * |a| == |Hex(a)| == 2 * |b|;
    forall i | 0 <= i < |a|
      ensures a[i] == b[i]
    {
      HexShows(a, i);
      HexShows(b, i);
      SameByte(a[i], b[i]);
    }
  }

  lemma SameByte(a: Byte, b: Byte)
    requires a as int == b as int
    ensures a == b
  {
  }

  // ----- what a sequence of calls should answer -----

  datatype Op = UpdateOp(data: seq<Byte>) | ResetOp | DigestOp(room: nat) | StringOp

  datatype Answer = Nothing | Bytes(bytes: seq<Byte>) | NoText | Text(text: string)

  /** The bytes of the updates since the last reset and before the first read that gave a digest. */
  function Message(is384: bool, ops: seq<Op>): seq<Byte>
    decreases ops, 1
  {
    if ops == [] then []
    else
      var before, last := ops[..|ops| - 1], ops[|ops| - 1];
      match last
      case ResetOp => []
      case UpdateOp(data) =>
        if WasRead(is384, before) then Message(is384, before) else Message(is384, before) + data
      case _ => Message(is384, before)
  }

  /** Since the last reset some read has given a digest. */
  predicate WasRead(is384: bool, ops: seq<Op>)
    decreases ops, 1
  {
    if ops == [] then false
    else
      var before, last := ops[..|ops| - 1], ops[|ops| - 1];
      last != ResetOp && (WasRead(is384, before) || Reads(is384, before, last))
  }

  /** The call `op` gives a digest after the calls `before`. */
  predicate Reads(is384: bool, before: seq<Op>, op: Op)
    decreases before, 2
  {
    && (op.StringOp? || (op.DigestOp? && DigestSize(is384) <= op.room))
    && Message(is384, before) != []
  }

  /** What the call `op` answers after the calls `before`: the one-shot digest of the message, if there is any. */
  function Expected(is384: bool, before: seq<Op>, op: Op): Answer {
    var message := Message(is384, before);
    match op
    case DigestOp(room) =>
      if message == [] || room < DigestSize(is384) then Bytes([]) else Bytes(Digest(is384, message))
    case StringOp =>
      if message == [] then NoText else Text(Hex(Digest(is384, message)))
    case _ => Nothing
  }

  // ----- the handle -----

  class Handle {
    const context: Context
    const hashLen: nat
    var closed: bool
    var reseted: bool

    ghost predicate Valid()
      reads this, context, context.buf, context.hash
    {
      && hashLen == DigestSize(context.is384)
      && (if closed then context.Closed() else context.Open())
      && (reseted <==> context.message == []) && (closed ==> !reseted)
    }

    /** `p_crypto_hash_new` for the types `P_CRYPTO_HASH_TYPE_SHA2_384` and `P_CRYPTO_HASH_TYPE_SHA2_512`. */
    constructor (is384: bool)
      ensures Valid() && fresh(context) && fresh(context.buf) && fresh(context.hash)
      ensures !closed && context.message == [] && context.is384 == is384
    {
      hide Holds, Counts, Digest;
      hashLen := if is384 then 48 else 64;
      closed, reseted := false, true;
      context := new Context(is384);
    }

    /** `p_crypto_hash_update`. */
    method Update(data: seq<Byte>)
      requires Valid() && |data| < TWO_64
      modifies this, context, context.buf, context.hash
      ensures Valid() && closed == old(closed)
      ensures context.message == if closed then old(context.message) else old(context.message) + data
    {
      if |data| == 0 {
        return;
      }
      if closed {
        return;
      }
      context.Update(data);
      reseted := false;
    }

    /** `p_crypto_hash_reset`. */
    method Reset()
      requires Valid()
      modifies this, context, context.buf, context.hash
      ensures Valid() && !closed && context.message == []
    {
      hide Holds, Counts, Digest;
      context.Reset();
      closed := false;
      reseted := true;
    }

    /** What the two getters share once they go on: the context is finished at most once. */
    method Close()
      requires Valid() && !reseted
      modifies this, context, context.buf, context.hash
      ensures Valid() && closed && context.message == old(context.message)
    {
      if !closed {
        context.Finish();
        closed := true;
      }
    }

    /** `p_crypto_hash_get_string`; no text stands for the null pointer. */
    method GetString() returns (answer: Answer)
      requires Valid()
      modifies this, context, context.buf, context.hash
      ensures Valid() && context.message == old(context.message)
      ensures if context.message == [] then answer == NoText && closed == old(closed)
              else answer == Text(Hex(Digest(context.is384, context.message))) && closed
    {
      if reseted {
        return NoText;
      }
      Close();
      var digest := context.ReadDigest();
      var text := new char[2 * hashLen + 1];
      DigestToHex(digest, text);
      return Text(text[..2 * |digest|]);
    }

    /** `p_crypto_hash_get_digest` into a buffer of `room` bytes; no bytes stand for a length of 0. */
    method GetDigest(room: nat) returns (answer: Answer)
      requires Valid()
      modifies this, context, context.buf, context.hash
      ensures Valid() && context.message == old(context.message)
      ensures if context.message == [] || room < hashLen then answer == Bytes([]) && closed == old(closed)
              else answer == Bytes(Digest(context.is384, context.message)) && closed
    {
      if reseted {
        return Bytes([]);
      }
      if hashLen > room {
        return Bytes([]);
      }
      Close();
      var digest := context.ReadDigest();
      return Bytes(digest);
    }
  }

  // ----- whole runs -----

  /** The handle is where the calls `before` leave it. */
  ghost predicate Reflects(handle: Handle, before: seq<Op>)
    reads handle, handle.context, handle.context.buf, handle.context.hash
  {
    && handle.Valid()
    && handle.context.message == Message(handle.context.is384, before)
    && handle.closed == WasRead(handle.context.is384, before)
  }

  lemma OneMoreCall(is384: bool, before: seq<Op>, op: Op)
    ensures Message(is384, before + [op]) ==
      if op.ResetOp? then []
      else if op.UpdateOp? && !WasRead(is384, before) then Message(is384, before) + op.data
      else Message(is384, before)
    ensures WasRead(is384, before + [op]) ==
      (!op.ResetOp? && (WasRead(is384, before) || Reads(is384, before, op)))
  {
    assert (before + [op])[..|before|] == before;
  }

  lemma NothingCalled(handle: Handle)
    requires handle.Valid() && !handle.closed && handle.context.message == []
    ensures Reflects(handle, [])
  {
    hide Digest, Hex;
  }

  /** A call on a handle, after the calls `before`. */
  method Perform(handle: Handle, ghost before: seq<Op>, op: Op) returns (answer: Answer)
    requires Reflects(handle, before) && (op.UpdateOp? ==> |op.data| < TWO_64)
    modifies handle, handle.context, handle.context.buf, handle.context.hash
    ensures Reflects(handle, before + [op]) && answer == Expected(handle.context.is384, before, op)
  {
    hide Holds, Counts, Digest, Hex, Message, WasRead, NativeAll, Initial;
    OneMoreCall(handle.context.is384, before, op);
    answer := Nothing;
    match op {
      case UpdateOp(data) => handle.Update(data);
      case ResetOp => handle.Reset();
      case DigestOp(room) => answer := handle.GetDigest(room);
      case StringOp => answer := handle.GetString();
    }
  }

  /** The calls `ops` on a handle on which nothing was called yet. */
  method PerformAll(handle: Handle, ops: seq<Op>) returns (answers: seq<Answer>)
    requires Reflects(handle, [])
    requires forall i :: 0 <= i < |ops| && ops[i].UpdateOp? ==> |ops[i].data| < TWO_64
    modifies handle, handle.context, handle.context.buf, handle.context.hash
    ensures |answers| == |ops|
    ensures forall i :: 0 <= i < |ops| ==> answers[i] == Expected(handle.context.is384, ops[..i], ops[i])
  {
    hide *;
    answers := [];
    for i := 0 to |ops|
      invariant Reflects(handle, ops[..i]) && |answers| == i
      invariant forall j :: 0 <= j < i ==> answers[j] == Expected(handle.context.is384, ops[..j], ops[j])
    {
      assert ops[..i + 1] == ops[..i] + [ops[i]];
      var answer := Perform(handle, ops[..i], ops[i]);
      answers := answers + [answer];
    }
  }

  /** For every sequence of calls on a new handle each answer is the expected one: any digest that is returned is the
      one-shot digest of the updates since the last reset and before the first read. */
  method Replay(is384: bool, ops: seq<Op>) returns (answers: seq<Answer>)
    requires forall i :: 0 <= i < |ops| && ops[i].UpdateOp? ==> |ops[i].data| < TWO_64
    ensures |answers| == |ops|
    ensures forall i :: 0 <= i < |ops| ==> answers[i] == Expected(is384, ops[..i], ops[i])
  {
    hide *;
    var handle := new Handle(is384);
    NothingCalled(handle);
    answers := PerformAll(handle, ops);
  }

  /** Reads agree: after a read that gave a digest nothing but a reset changes what is read. */
  lemma {:induction false} ReadsAgree(is384: bool, ops: seq<Op>, i: nat, j: nat)
    requires i <= j <= |ops| && WasRead(is384, ops[..i])
    requires forall k :: i <= k < j ==> ops[k] != ResetOp
    ensures WasRead(is384, ops[..j]) && Message(is384, ops[..j]) == Message(is384, ops[..i])
  {
    if i < j {
      assert ops[..j][..j - 1] == ops[..j - 1];
      ReadsAgree(is384, ops, i, j - 1);
    }
  }

  function Updates(chunks: seq<seq<Byte>>): (ops: seq<Op>)
    ensures |ops| == |chunks|
  {
    seq(|chunks|, i requires 0 <= i < |chunks| => UpdateOp(chunks[i]))
  }

  function Joined(chunks: seq<seq<Byte>>): seq<Byte> {
    if chunks == [] then [] else Joined(chunks[..|chunks| - 1]) + chunks[|chunks| - 1]
  }

  /** Only the concatenation of the updates counts, not how it was cut. */
  lemma {:induction false} ChunkingIsIrrelevant(is384: bool, chunks: seq<seq<Byte>>)
    ensures Message(is384, Updates(chunks)) == Joined(chunks) && !WasRead(is384, Updates(chunks))
  {
    if chunks != [] {
      var n := |chunks| - 1;
      ChunkingIsIrrelevant(is384, chunks[..n]);
      assert Updates(chunks)[..n] == Updates(chunks[..n]);
    }
  }
}
