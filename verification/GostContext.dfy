// Streaming: plibsys/src/pcryptohash-gost3411.c keeps a hash value, a partial block, a 256-bit length and a 256-bit
// sum of all blocks, on a little-endian host.

module GostContext {
  import opened Arithmetic
  import opened Buffer
  import opened GostNumbers
  import opened GostSum
  import opened GostStep
  import opened Words32

  // ----- the hash of a message, section 6 of RFC 5831 -----

  datatype Standard = Standard(h: Eight, sigma: nat)

  /** The hash value and the checksum after the whole blocks of `bytes`. */
  function Hashed(s: Standard, bytes: seq<Byte>): Standard
    decreases |bytes|
  {
    if |bytes| < 32 then s
    else
      Hashed(Standard(Step(s.h, WordsOf(bytes[..32])), Modulo(s.sigma + Number(bytes[..32]))), bytes[32..])
  }

  /** The last block is filled up with zeros. */
  function Padded(m: seq<Byte>): (p: seq<Byte>)
    ensures |p| % 32 == 0
  {
    m + Zeros((32 - |m| % 32) % 32)
  }

  /** A padded message is the message and as few zeros as fill its last block. */
  lemma PaddedMeans(m: seq<Byte>)
    ensures var p := Padded(m);
      && |p| % 32 == 0 && |m| <= |p| < |m| + 32 && p[..|m|] == m && forall i :: |m| <= i < |p| ==> p[i] == 0
  {
    hide Zeros;
  }

  /** The digest of a message from the hash value `h` after its blocks and the checksum `sum`. */
  function DigestWith(m: seq<Byte>, h: Eight, sum: Eight): (d: seq<Byte>)
    ensures |d| == 32
  {
    AllBytes(Step(Step(h, LengthBlock(|m|)), sum))
  }

  function StandardDigest(m: seq<Byte>): seq<Byte> {
    var s := Hashed(Standard(ZEROS, 0), Padded(m));
    DigestWith(m, s.h, OfLimbs(ToLimbs(s.sigma, 8)))
  }

  // ----- what the source computes -----

  const NONE: seq<Limb> := [0, 0, 0, 0, 0, 0, 0, 0]

  /** The hash value and the sum as the loop adds it. */
  datatype Fed = Fed(h: Eight, sum: seq<Limb>)

  function Fold(s: Fed, block: seq<Byte>): (t: Fed)
    requires |s.sum| == 8 && |block| == 32
    ensures |t.sum| == 8
  {
    Fed(Step(s.h, WordsOf(block)), Added(s.sum, LimbsOf(WordsOf(block)), false))
  }

  function Absorbed(s: Fed, bytes: seq<Byte>): (t: Fed)
    requires |s.sum| == 8
    ensures |t.sum| == 8
    decreases |bytes|
  {
    if |bytes| < 32 then s else Absorbed(Fold(s, bytes[..32]), bytes[32..])
  }

  const START := Fed(ZEROS, NONE)

  function Digest(m: seq<Byte>): (d: seq<Byte>)
    ensures |d| == 32
  {
    var s := Absorbed(START, Padded(m));
    DigestWith(m, s.h, OfLimbs(s.sum))
  }

  /** The sum of the blocks as numbers. */
  function Checksum(bytes: seq<Byte>): nat
    decreases |bytes|
  {
    if |bytes| < 32 then 0 else Number(bytes[..32]) + Checksum(bytes[32..])
  }

  /** What the carries lost on the way are worth. */
  function TotalLost(sum: seq<Limb>, bytes: seq<Byte>): nat
    requires |sum| == 8
    decreases |bytes|
  {
    if |bytes| < 32 then 0
    else
      var b := LimbsOf(WordsOf(bytes[..32]));
      Lost(sum, b, false) + TotalLost(Added(sum, b, false), bytes[32..])
  }

  /** Down to the first block. */
  lemma FirstBlock(s: Fed, bytes: seq<Byte>) returns (b: seq<Limb>)
    requires |s.sum| == 8 && 32 <= |bytes|
    ensures |b| == 8 && Fold(s, bytes[..32]).sum == Added(s.sum, b, false)
    ensures Absorbed(s, bytes) == Absorbed(Fold(s, bytes[..32]), bytes[32..])
    ensures Checksum(bytes) == Value(b) + Checksum(bytes[32..]) && Value(b) == Number(bytes[..32])
    ensures TotalLost(s.sum, bytes) == Lost(s.sum, b, false) + TotalLost(Fold(s, bytes[..32]).sum, bytes[32..])
  {
    hide Step, Value, Added, Lost, LimbsOf, WordsOf;
    b := LimbsOf(WordsOf(bytes[..32]));
  }

  lemma NoBlock(s: Fed, bytes: seq<Byte>)
    requires |s.sum| == 8 && |bytes| < 32
    ensures Absorbed(s, bytes) == s && Checksum(bytes) == 0 && TotalLost(s.sum, bytes) == 0
  {
    hide Fold, Value, Added, Lost, LimbsOf, WordsOf;
  }

  lemma {:induction false} SumFallsShort(s: Fed, bytes: seq<Byte>) returns (q: nat)
    requires |s.sum| == 8
    ensures Value(Absorbed(s, bytes).sum) + TotalLost(s.sum, bytes) + q * Power(8) == Value(s.sum) + Checksum(bytes)
    decreases |bytes|
  {
    hide *;
    if |bytes| < 32 {
      NoBlock(s, bytes);
      q := 0;
    } else {
      var b := FirstBlock(s, bytes);
      var top := AddsButLost(s.sum, b, false);
      var p := SumFallsShort(Fold(s, bytes[..32]), bytes[32..]);
      q := p + top;
      assert q * Power(8) == p * Power(8) + top * Power(8);
    }
  }

  lemma SameRemainder(x: nat, lost: nat, q: nat, y: nat, m: nat)
    requires 0 < m && x < m && x + lost + q * m == y
    ensures x == y % m <==> lost % m == 0
  {
    var p, r := lost / m, lost % m;
    Distributes(p, q, m);
    assert lost == p * m + r && 0 <= r < m;
    if x + r < m {
      Remainder(y, p + q, x + r, m);
    } else {
      Remainder(y, p + q + 1, x + r - m, m);
    }
  }

  lemma Distributes(p: nat, q: nat, m: nat)
    ensures (p + q) * m == p * m + q * m && (p + q + 1) * m == p * m + q * m + m
  {
  }

  /** The sum that the source has added up is that of the standard exactly when the lost carries are worth a multiple of
      2 to the 256, for instance nothing. */
  lemma ChecksumIff(bytes: seq<Byte>)
    ensures Value(Absorbed(START, bytes).sum) == Checksum(bytes) % Power(8) <==> TotalLost(NONE, bytes) % Power(8) == 0
  {
    NothingSummed();
    hide *;
    var q := SumFallsShort(START, bytes);
    ValueBounds(Absorbed(START, bytes).sum);
    PowerPositive(8);
    SameRemainder(Value(Absorbed(START, bytes).sum), TotalLost(NONE, bytes), q, Checksum(bytes), Power(8));
  }

  lemma NothingSummed()
    ensures START.sum == NONE && |NONE| == 8 && START.h == ZEROS && Value(NONE) == 0
  {
    ZerosKeep(NONE, NONE, false);
  }

  /** Eight bytes of all ones and 24 of zero. */
  function HalfOnes(): (b: seq<Byte>)
    ensures |b| == 32
  {
    [0xFF, 0xFF, 0xFF, 0xFF, 0xFF, 0xFF, 0xFF, 0xFF] + Zeros(24)
  }

  lemma {:induction false} ZeroLimbs(b: seq<Byte>)
    requires |b| % 4 == 0 && forall i :: 0 <= i < |b| ==> b[i] == 0
    ensures forall i :: 0 <= i < |b| / 4 ==> Limbs(Read(b))[i] == 0
  {
    if b != [] {
      ZeroLimbs(b[4..]);
      assert WordOf(0, 0, 0, 0) == 0 && LimbOf(0) == 0;
      hide WordOf, LimbOf;
      assert Limbs(Read(b)) == [0] + Limbs(Read(b[4..]));
    }
  }

  lemma OnesFirst(b: seq<Byte>)
    requires |b| % 4 == 0 && 4 <= |b| && forall i :: 0 <= i < 4 ==> b[i] == 0xFF
    ensures Limbs(Read(b)) == [0xFFFF_FFFF] + Limbs(Read(b[4..]))
  {
    assert WordOf(0xFF, 0xFF, 0xFF, 0xFF) == 0xFFFF_FFFF && LimbOf(0xFFFF_FFFF) == 0xFFFF_FFFF;
    hide WordOf, LimbOf;
  }

  lemma HalfOnesAre()
    ensures LimbsOf(WordsOf(HalfOnes())) == TwoOnes()
  {
    var b := HalfOnes();
    hide Read, Limbs, Zeros;
    OnesFirst(b);
    OnesFirst(b[4..]);
    assert b[4..][4..] == b[8..];
    ZeroLimbs(b[8..]);
  }

  lemma {:induction false} AddedToZeros(a: seq<Limb>, b: seq<Limb>)
    requires |a| == |b| && forall i :: 0 <= i < |a| ==> a[i] == 0
    ensures Added(a, b, false) == b
  {
    if a != [] {
      AddedToZeros(a[1..], b[1..]);
    }
  }

  lemma TwoBlocks(s: Fed, b: seq<Byte>)
    requires |s.sum| == 8 && |b| == 32
    ensures Absorbed(s, b + b) == Fold(Fold(s, b), b) && Checksum(b + b) == Number(b) + Number(b)
  {
    hide Fold, Number;
    var m := b + b;
    assert m[..32] == b && m[32..] == b && b[..32] == b && b[32..] == [];
    assert Absorbed(s, m) == Absorbed(Fold(s, b), b) && Absorbed(Fold(s, b), b) == Fold(Fold(s, b), b);
    assert Checksum(b) == Number(b);
  }

  lemma NoneAdds(x: seq<Limb>)
    requires |x| == 8
    ensures |NONE| == 8 && Added(NONE, x, false) == x
  {
    AddedToZeros(NONE, x);
  }

  lemma NumberIs(b: seq<Byte>, x: seq<Limb>)
    requires |b| == 32 && LimbsOf(WordsOf(b)) == x
    ensures Number(b) == Value(x)
  {
    hide LimbsOf, WordsOf, Value;
  }

  lemma SumOfTwo(b: seq<Byte>, x: seq<Limb>)
    requires |b| == 32 && |x| == 8 && LimbsOf(WordsOf(b)) == x
    ensures Absorbed(START, b + b).sum == Added(x, x, false) && Checksum(b + b) == Value(x) + Value(x)
  {
    hide *;
    NothingSummed();
    NoneAdds(x);
    NumberIs(b, x);
    TwoBlocks(START, b);
    FoldIs(START, b);
    FoldIs(Fold(START, b), b);
  }

  lemma FoldIs(s: Fed, block: seq<Byte>)
    requires |s.sum| == 8 && |block| == 32
    ensures Fold(s, block).h == Step(s.h, WordsOf(block))
    ensures Fold(s, block).sum == Added(s.sum, LimbsOf(WordsOf(block)), false)
  {
    hide Step, Added, WordsOf, LimbsOf;
  }

  /** A message that shows it: two equal blocks whose lowest two limbs are all ones. */
  lemma ChecksumGoesWrong()
    ensures var m := HalfOnes() + HalfOnes(); Value(Absorbed(START, m).sum) != Modulo(Checksum(m))
  {
    hide *;
    HalfOnesAre();
    LosesACarry();
    SumOfTwo(HalfOnes(), TwoOnes());
  }

  lemma OneMoreHashed(s: Standard, bytes: seq<Byte>)
    requires 32 <= |bytes|
    ensures Hashed(s, bytes) ==
      Hashed(Standard(Step(s.h, WordsOf(bytes[..32])), Modulo(s.sigma + Number(bytes[..32]))), bytes[32..])
  {
    hide Step, Number, Power, WordsOf;
  }

  lemma NoneHashed(s: Standard, bytes: seq<Byte>)
    requires |bytes| < 32
    ensures Hashed(s, bytes) == s
  {
    hide Step, Number, Power, WordsOf;
  }

  lemma {:induction false} HashedIs(s: Standard, t: Fed, bytes: seq<Byte>)
    requires |t.sum| == 8 && s.h == t.h && Modulo(s.sigma) == s.sigma
    ensures Hashed(s, bytes).h == Absorbed(t, bytes).h
    ensures Hashed(s, bytes).sigma == Modulo(s.sigma + Checksum(bytes))
    decreases |bytes|
  {
    hide *;
    if |bytes| < 32 {
      NoneHashed(s, bytes);
      NoBlock(t, bytes);
    } else {
      var n, rest := Number(bytes[..32]), Checksum(bytes[32..]);
      OneMoreHashed(s, bytes);
      var b := FirstBlock(t, bytes);
      FoldIs(t, bytes[..32]);
      ModuloAdds(s.sigma + n, 0);
      ModuloAdds(s.sigma + n, rest);
      HashedIs(Standard(Fold(t, bytes[..32]).h, Modulo(s.sigma + n)), Fold(t, bytes[..32]), bytes[32..]);
    }
  }

  lemma ModuloAdds(x: nat, y: nat)
    ensures Modulo(Modulo(x) + y) == Modulo(x + y)
  {
    PowerPositive(8);
    hide Power;
    AddedRemainder(x, y, Power(8));
  }

  lemma DigestsUnfold(m: seq<Byte>)
    ensures var s := Absorbed(START, Padded(m)); Digest(m) == DigestWith(m, s.h, OfLimbs(s.sum))
    ensures var s := Hashed(Standard(ZEROS, 0), Padded(m));
      StandardDigest(m) == DigestWith(m, s.h, OfLimbs(ToLimbs(s.sigma, 8)))
  {
    hide Absorbed, Hashed, Padded, DigestWith, OfLimbs, ToLimbs;
  }

  lemma ModuloIs(x: nat)
    ensures Modulo(0) == 0 && Modulo(x) == x % Power(8)
  {
    PowerPositive(8);
    hide Power;
    Remainder(0, 0, 0, Power(8));
  }

  /** When the lost carries are worth nothing modulo 2 to the 256 the digest is that of the standard. */
  lemma DigestIsStandard(m: seq<Byte>)
    requires TotalLost(NONE, Padded(m)) % Power(8) == 0
    ensures Digest(m) == StandardDigest(m)
  {
    DigestsUnfold(m);
    NothingSummed();
    ModuloIs(Checksum(Padded(m)));
    hide *;
    HashedIs(Standard(ZEROS, 0), START, Padded(m));
    ChecksumIff(Padded(m));
    LimbsDecided(Absorbed(START, Padded(m)).sum);
  }

  // ----- messages as whole blocks and a tail -----

  lemma {:induction false} AbsorbedConcat(s: Fed, a: seq<Byte>, b: seq<Byte>)
    requires |s.sum| == 8 && |a| % 32 == 0
    ensures Absorbed(s, a + b) == Absorbed(Absorbed(s, a), b)
    decreases |a|
  {
    hide Fold;
    if a == [] {
      assert a + b == b;
    } else {
      assert (a + b)[..32] == a[..32] && (a + b)[32..] == a[32..] + b;
      AbsorbedConcat(Fold(s, a[..32]), a[32..], b);
    }
  }

  lemma AbsorbedBlock(s: Fed, x: seq<Byte>)
    requires |s.sum| == 8 && |x| == 32
    ensures Absorbed(s, x) == Fold(s, x)
  {
    hide Fold;
    assert x[..32] == x && x[32..] == [];
  }

  /** Filling the buffer exactly folds in one block of the message. */
  lemma FeedBlock(s: Fed, m: seq<Byte>, d: seq<Byte>)
    requires |s.sum| == 8 && TailSize(m, 32) + |d| == 32
    ensures Tail(m + d, 32) == [] && TailSize(m + d, 32) == 0 && |Tail(m, 32) + d| == 32
    ensures Absorbed(s, Whole(m + d, 32)) == Fold(Absorbed(s, Whole(m, 32)), Tail(m, 32) + d)
  {
    hide Fold, Absorbed;
    FeedWhole(m, d, 32);
    hide TailSize, Whole, Tail;
    AbsorbedConcat(s, Whole(m, 32), Tail(m, 32) + d);
    AbsorbedBlock(Absorbed(s, Whole(m, 32)), Tail(m, 32) + d);
  }

  /** `s` has taken in the whole blocks of `m`, and the buffer starts with the rest. */
  ghost predicate Holds(s: Fed, b: seq<Byte>, m: seq<Byte>) {
    |b| == 32 && |START.sum| == 8 && s == Absorbed(START, Whole(m, 32)) && b[..TailSize(m, 32)] == Tail(m, 32)
  }

  lemma HoldsNothing(b: seq<Byte>)
    requires |b| == 32
    ensures Holds(START, b, [])
  {
    NothingSummed();
    NothingWaits(32);
    NoBlock(START, []);
    hide Absorbed, Whole, Tail, START;
  }

  lemma HoldsMore(s: Fed, b: seq<Byte>, c: seq<Byte>, m: seq<Byte>, d: seq<Byte>)
    requires Holds(s, b, m) && TailSize(m, 32) + |d| < 32
    requires c == b[..TailSize(m, 32)] + d + b[TailSize(m, 32) + |d|..]
    ensures Holds(s, c, m + d)
  {
    FeedPartial(m, d, 32);
    PrefixOf(b, c, d, TailSize(m, 32));
    hide Absorbed;
  }

  lemma HoldsBlock(s: Fed, b: seq<Byte>, c: seq<Byte>, m: seq<Byte>, d: seq<Byte>)
    requires Holds(s, b, m) && TailSize(m, 32) + |d| == 32 && c == b[..TailSize(m, 32)] + d
    ensures TailSize(m + d, 32) == 0 && |c| == 32 && |s.sum| == 8 && Holds(Fold(s, c), c, m + d)
  {
    hide Absorbed, Fold;
    FeedBlock(START, m, d);
  }

  /** The limbs count `n` bytes in bits. */
  ghost predicate Counts(x: seq<Limb>, n: nat) { |x| == 8 && Value(x) == 8 * n % Power(8) }

  /** All of `m` has been taken in. */
  ghost predicate Took(s: Fed, m: seq<Byte>) { |START.sum| == 8 && s == Absorbed(START, m) }

  /** An update of `len` bytes whose length the source does not cut wrongly: its bits fit the two limbs that are added,
      and if bytes are waiting the length modulo 2 to the 32 still says whether they become a block. */
  predicate Measured(waiting: nat, len: nat)
    requires waiting < 32
  {
    len / 0x2000_0000 < W - 1 && (waiting == 0 || (32 - waiting <= len ==> 32 - waiting <= len % W))
  }

  lemma ShortIsMeasured(waiting: nat, len: nat)
    requires waiting < 32 && len < W
    ensures Measured(waiting, len)
  {
    Remainder(len, 0, len, W);
  }

  lemma CutLength(waiting: nat, len: nat)
    requires waiting < 32 && Measured(waiting, len) && waiting != 0
    ensures len % W >= 32 - waiting <==> len >= 32 - waiting
  {
    if len < 32 {
      Remainder(len, 0, len, W);
    }
  }

  lemma SameWords(x: Eight)
    ensures EightOf(x.Words()) == x
  {
  }

  /** The length in bits says how full the buffer is. */
  lemma CountedTail(x: seq<Limb>, n: nat)
    requires Counts(x, n)
    ensures x[0] as nat % 256 / 8 == n % 32
  {
    var q, rest, m := 8 * n / Power(8), Value(x[1..]), Power(7);
    assert Power(8) == W * m && Value(x) == x[0] as nat + W * rest;
    PowerPositive(8);
    hide Power, Value;
    assert 8 * n == q * (W * m) + (x[0] as nat + W * rest);
    var low, high := n % 32, n / 32;
    Remainder(8 * n, high, 8 * low, 256);
    var k := x[0] as nat / 256;
    Multiples(q, m);
    Remainder(8 * n, 0x100_0000 * (q * m) + 0x100_0000 * rest + k, x[0] as nat % 256, 256);
  }

  lemma Multiples(q: nat, m: nat)
    ensures q * (W * m) == 256 * (0x100_0000 * (q * m))
  {
  }

  // ----- the context -----

  /** `PHashGOST3411`; `message` is what was fed since the last reset. */
  class Context {
    const buf: array<Byte>
    const hash: array<Word>
    const len: array<Limb>
    const sum: array<Limb>
    ghost var message: seq<Byte>

    ghost predicate Shaped() {
      && buf.Length == 32 && hash.Length == 8 && len.Length == 8 && sum.Length == 8 && len != sum
      && Apart(buf, len) && Apart(buf, sum) && Apart(hash, len) && Apart(hash, sum)
    }

    static ghost predicate Apart(a: object, b: object) { a != b }

    /** The hash value and the sum have taken in the whole blocks of `m`; the buffer holds the rest. */
    ghost predicate Follows(m: seq<Byte>)
      reads buf, hash, sum
    {
      Shaped() && Holds(Fed(EightOf(hash[..]), sum[..]), buf[..], m)
    }

    /** Still taking bytes. */
    ghost predicate Open()
      reads this, buf, hash, len, sum
    {
      Follows(message) && Counts(len[..], |message|)
    }

    /** Finished: the words of the hash value show the digest. */
    ghost predicate Closed()
      reads this, hash
    {
      Shaped() && AllBytes(EightOf(hash[..])) == Digest(message)
    }

    /** `p_crypto_hash_gost3411_new`. */
    constructor ()
      ensures Open() && message == [] && fresh(buf) && fresh(hash) && fresh(len) && fresh(sum)
    {
      buf := new Byte[32];
      hash := new Word[8];
      len := new Limb[8];
      sum := new Limb[8];
      new;
      Reset();
    }

    /** `p_crypto_hash_gost3411_reset`. */
    method Reset()
      requires Shaped()
      modifies this, buf, hash, len, sum
      ensures Open() && message == []
    {
      hide Holds, Value, Power;
      ClearBytes(buf);
      ClearWords(hash);
      ClearLimbs(len);
      ClearLimbs(sum);
      message := [];
      NothingSummed();
      PowerPositive(8);
      HoldsNothing(buf[..]);
      assert len[..] == NONE && sum[..] == NONE;
      AllZero(hash[..]);
      Remainder(0, 0, 0, Power(8));
    }

    /** Bytes that fill the buffer are copied in, the block is processed and added to the sum. */
    method TakeBlock(left: nat, data: seq<Byte>, ghost m: seq<Byte>)
      requires Follows(m) && left == TailSize(m, 32) && left + |data| == 32
      modifies buf, hash, sum
      ensures Follows(m + data) && TailSize(m + data, 32) == 0
    {
      hide Holds, Fold, TailSize, Absorbed;
      assert |buf[..]| == 32;
      ghost var s, before := Fed(EightOf(hash[..]), sum[..]), buf[..];
      Copy(buf, left, data);
      assert buf[..] == before[..left] + data;
      HoldsBlock(s, before, buf[..], m, data);
      TakeWords(s, buf[..]);
    }

    /** `pp_crypto_hash_gost3411_process` and `pp_crypto_hash_gost3411_sum_256` on a block. */
    method TakeWords(ghost s: Fed, block: seq<Byte>)
      requires Shaped() && s == Fed(EightOf(hash[..]), sum[..]) && |block| == 32
      modifies hash, sum
      ensures Fed(EightOf(hash[..]), sum[..]) == Fold(s, block)
    {
      hide Step, Added;
      SameWords(WordsOf(block));
      SameWords(Step(s.h, WordsOf(block)));
      hide WordsOf, LimbsOf, EightOf;
      Process(hash, WordsOf(block).Words());
      assert EightOf(hash[..]) == Step(s.h, WordsOf(block));
      Sum256(sum, LimbsOf(WordsOf(block)));
    }

    /** The loop over the whole blocks of `data` from `start` on. */
    method TakeBlocks(left: nat, data: seq<Byte>, start: nat, ghost m: seq<Byte>) returns (at: nat)
      requires start <= |data| && Follows(m) && left == TailSize(m, 32)
      requires left == 0 || left + |data| - start < 32
      modifies buf, hash, sum
      ensures start <= at <= |data| && left + |data| - at < 32
      ensures Follows(m + data[start..at]) && TailSize(m + data[start..at], 32) == left
    {
      hide *;
      Extended(m, data, start, start, start);
      at := start;
      while |data| - at >= 32
        invariant start <= at <= |data|
        invariant left == 0 || left + |data| - at < 32
        invariant Follows(m + data[start..at]) && TailSize(m + data[start..at], 32) == left
        modifies buf, hash, sum
      {
        TakeBlock(0, data[at..at + 32], m + data[start..at]);
        Extended(m, data, start, at, at + 32);
        at := at + 32;
      }
    }

    /** Bytes that do not fill the buffer are kept for later. */
    method Keep(left: nat, data: seq<Byte>, ghost m: seq<Byte>)
      requires Follows(m) && left == TailSize(m, 32) && left + |data| < 32
      modifies buf
      ensures Follows(m + data)
    {
      hide Holds;
      ghost var before := buf[..];
      assert |before| == 32;
      if |data| > 0 {
        Copy(buf, left, data);
      }
      assert buf[..] == before[..left] + data + before[left + |data|..];
      HoldsMore(Fed(EightOf(hash[..]), sum[..]), before, buf[..], m, data);
    }

    /** What an update does with its bytes. */
    method TakeBytes(oldLeft: nat, data: seq<Byte>, ghost m: seq<Byte>)
      requires Follows(m) && oldLeft == TailSize(m, 32) && Measured(oldLeft, |data|)
      modifies buf, hash, sum
      ensures Follows(m + data)
    {
      assert 0 < W;
      hide *;
      var left, toFill, at := oldLeft, 32 - oldLeft, 0;
      Rejoined(m, data, 0, 0);
      if left != 0 {
        CutLength(left, |data|);
      }
      if left != 0 && |data| % W >= toFill {
        TakeBlock(left, data[..toFill], m);
        left, at := 0, toFill;
      }
      var end := TakeBlocks(left, data, at, m + data[..at]);
      Rejoined(m, data, at, end);
      Keep(left, data[end..], m + data[..end]);
    }

    /** `p_crypto_hash_gost3411_update`. */
    method Update(data: seq<Byte>)
      requires Open() && Measured(|message| % 32, |data|)
      modifies this, buf, hash, len, sum
      ensures Open() && message == old(message) + data
    {
      hide Holds, Value, Power, Added, LengthLimbs, TailSize;
      var left := len[0] as nat % 256 / 8;
      ghost var m := message;
      CountedTail(len[..], |m|);
      IsTail(m);
      LengthGrows(len[..], |m|, |data|);
      Sum256(len, LengthLimbs(|data|));
      assert left == TailSize(m, 32);
      assert Follows(m);
      message := m + data;
      TakeBytes(left, data, m);
    }

    /** `p_crypto_hash_gost3411_finish`. */
    method Finish()
      requires Open()
      modifies this, buf, hash, sum
      ensures Closed() && message == old(message)
    {
      hide Holds, Counts, TailSize, Took;
      var left := len[0] as nat % 256;
      var last := 32 - left / 8;
      ghost var m := message;
      CountedTail(len[..], |m|);
      IsTail(m);
      if last % 32 != 0 {
        TakeBlock(left / 8, Zeros(last), m);
      }
      PaddedIs(m, last);
      HoldsAll(Fed(EightOf(hash[..]), sum[..]), buf[..], Padded(m));
      assert len[..] == old(len[..]);
      LastBlocks(m);
    }

    /** The length and the sum are processed as blocks of their own. */
    method LastBlocks(ghost m: seq<Byte>)
      requires Shaped() && Counts(len[..], |m|) && m == message && Took(Fed(EightOf(hash[..]), sum[..]), Padded(m))
      modifies hash
      ensures Closed()
    {
      hide Counts, Took, OfLimbs, EightOf, Step, LengthBlock, Padded, AllBytes, Digest, Value, Power;
      ghost var h, total := EightOf(hash[..]), sum[..];
      LengthIs(len[..], |m|);
      DigestIs(m, h, total);
      TakeEight(OfLimbs(len[..]));
      assert EightOf(hash[..]) == Step(h, LengthBlock(|m|)) && sum[..] == total;
      TakeEight(OfLimbs(sum[..]));
    }

    /** `pp_crypto_hash_gost3411_process` on the eight words of the length or the sum. */
    method TakeEight(x: Eight)
      requires hash.Length == 8
      modifies hash
      ensures EightOf(hash[..]) == Step(EightOf(old(hash[..])), x)
    {
      SameWords(x);
      SameWords(Step(EightOf(hash[..]), x));
      hide Step, EightOf;
      Process(hash, x.Words());
    }

    /** `p_crypto_hash_gost3411_digest`, as far as the caller reads it. */
    method ReadDigest() returns (digest: seq<Byte>)
      requires Closed()
      ensures digest == Digest(message)
    {
      digest := AllBytes(EightOf(hash[..]));
    }
  }

  lemma AllZero(w: seq<Word>)
    requires |w| == 8 && forall i :: 0 <= i < 8 ==> w[i] == 0
    ensures EightOf(w) == ZEROS
  {
  }

  lemma IsTail(m: seq<Byte>)
    ensures TailSize(m, 32) == |m| % 32 < 32
  {
  }

  lemma LengthIs(x: seq<Limb>, n: nat)
    requires Counts(x, n)
    ensures OfLimbs(x) == LengthBlock(n)
  {
    hide Value, Power, OfLimbs, ToLimbs;
    LimbsDecided(x);
  }

  lemma DigestIs(m: seq<Byte>, h: Eight, sum: seq<Limb>)
    requires |sum| == 8 && Took(Fed(h, sum), Padded(m))
    ensures AllBytes(Step(Step(h, LengthBlock(|m|)), OfLimbs(sum))) == Digest(m)
  {
    DigestsUnfold(m);
    hide Step, LengthBlock, AllBytes, OfLimbs, Absorbed, Padded, Digest;
  }

  lemma PaddedIs(m: seq<Byte>, last: nat)
    requires last == 32 - |m| % 32
    ensures Padded(m) == if last % 32 == 0 then m else m + Zeros(last)
    ensures TailSize(Padded(m), 32) == 0
  {
    assert Zeros(0) == [] && m + [] == m;
  }

  lemma HoldsAll(s: Fed, b: seq<Byte>, m: seq<Byte>)
    requires Holds(s, b, m) && TailSize(m, 32) == 0
    ensures Took(s, m)
  {
    hide Absorbed;
    assert Whole(m, 32) == m;
  }

  method ClearBytes(a: array<Byte>)
    modifies a
    ensures forall i :: 0 <= i < a.Length ==> a[i] == 0
  {
    for i := 0 to a.Length
      invariant forall j :: 0 <= j < i ==> a[j] == 0
    {
      a[i] := 0;
    }
  }

  method ClearWords(a: array<Word>)
    modifies a
    ensures forall i :: 0 <= i < a.Length ==> a[i] == 0
  {
    for i := 0 to a.Length
      invariant forall j :: 0 <= j < i ==> a[j] == 0
    {
      a[i] := 0;
    }
  }

  method ClearLimbs(a: array<Limb>)
    modifies a
    ensures forall i :: 0 <= i < a.Length ==> a[i] == 0
  {
    for i := 0 to a.Length
      invariant forall j :: 0 <= j < i ==> a[j] == 0
    {
      a[i] := 0;
    }
  }
}
