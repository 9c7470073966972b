// The SHA-1 compression of plibsys/src/pcryptohash-sha1.c, with its schedule in a window of sixteen words,
// against FIPS 180-4.

module Sha1 {
  import opened Words32

  // ----- the standard: sections 3.2, 4.1.1, 4.2.1 and 6.1.2 -----

  function Sum5(v: Word, w: Word, x: Word, y: Word, z: Word): Word { v + w + x + y + z }

  function Rotl(x: Word, n: Word): Word
    requires 0 < n < 32
  {
    (x << n) | (x >> (32 - n))
  }

  function Ch(x: Word, y: Word, z: Word): Word { (x & y) ^ (!x & z) }

  function Parity(x: Word, y: Word, z: Word): Word { x ^ y ^ z }

  function Maj(x: Word, y: Word, z: Word): Word { (x & y) ^ (x & z) ^ (y & z) }

  function F(t: nat, x: Word, y: Word, z: Word): Word {
    if t < 20 then Ch(x, y, z) else if t < 40 then Parity(x, y, z) else if t < 60 then Maj(x, y, z) else Parity(x, y, z)
  }

  function Constant(t: nat): Word {
    if t < 20 then 0x5A827999 else if t < 40 then 0x6ED9EBA1 else if t < 60 then 0x8F1BBCDC else 0xCA62C1D6
  }

  function Mixed(a: Word, b: Word, c: Word, d: Word): Word { Rotl(a ^ b ^ c ^ d, 1) }

  function Schedule(block: seq<Word>, t: nat): Word
    requires |block| == 16
  {
    if t < 16 then block[t]
    else
      Mixed(Schedule(block, t - 3), Schedule(block, t - 8), Schedule(block, t - 14), Schedule(block, t - 16))
  }

  datatype Registers = Registers(a: Word, b: Word, c: Word, d: Word, e: Word)

  function Round(r: Registers, t: nat, w: Word): Registers {
    var temp := Sum5(Rotl(r.a, 5), F(t, r.b, r.c, r.d), r.e, Constant(t), w);
    Registers(temp, r.a, Rotl(r.b, 30), r.c, r.d)
  }

  /** The registers after the first `t` rounds. */
  function Rounds(h: seq<Word>, block: seq<Word>, t: nat): Registers
    requires |h| == 5 && |block| == 16
  {
    if t == 0 then At(h, 0, 1, 2, 3, 4)
    else Round(Rounds(h, block, t - 1), t - 1, Schedule(block, t - 1))
  }

  function Compressed(h: seq<Word>, block: seq<Word>): (s: seq<Word>)
    requires |h| == 5 && |block| == 16
    ensures |s| == 5
  {
    var r := Rounds(h, block, 80);
    [Plus(h[0], r.a), Plus(h[1], r.b), Plus(h[2], r.c), Plus(h[3], r.d), Plus(h[4], r.e)]
  }

  // ----- the source -----

  function RotL(val: Word, shift: Word): Word
    requires 0 < shift < 32
  {
    (val << shift) | (val >> (32 - shift))
  }

  lemma Rotates(x: Word, n: Word)
    requires 0 < n < 32
    ensures RotL(x, n) == Rotl(x, n)
  {
  }

  function F1(x: Word, y: Word, z: Word): Word { (x & y) | (!x & z) }

  function F2(x: Word, y: Word, z: Word): Word { x ^ y ^ z }

  function F3(x: Word, y: Word, z: Word): Word { (x & y) | (x & z) | (y & z) }

  /** The function that the macro for round `t` applies. */
  function Macro(t: nat, x: Word, y: Word, z: Word): Word {
    if t < 20 then F1(x, y, z) else if t < 40 then F2(x, y, z) else if t < 60 then F3(x, y, z) else F2(x, y, z)
  }

  lemma ChoiceBits(x: bv32, y: bv32, z: bv32)
    ensures (x & y) | (!x & z) == (x & y) ^ (!x & z)
  {
  }

  lemma MajorityBits(x: bv32, y: bv32, z: bv32)
    ensures (x & y) | (x & z) | (y & z) == (x & y) ^ (x & z) ^ (y & z)
  {
  }

  lemma Choice(x: Word, y: Word, z: Word)
    ensures F1(x, y, z) == Ch(x, y, z)
  {
    hide F2, F3, Parity, Maj;
    ChoiceBits(x, y, z);
  }

  lemma Parities(x: Word, y: Word, z: Word)
    ensures F2(x, y, z) == Parity(x, y, z)
  {
  }

  lemma Majority(x: Word, y: Word, z: Word)
    ensures F3(x, y, z) == Maj(x, y, z)
  {
    hide F1, F2, Ch, Parity;
    MajorityBits(x, y, z);
  }

  lemma MacroIs(t: nat, x: Word, y: Word, z: Word)
    ensures Macro(t, x, y, z) == F(t, x, y, z)
  {
    if t < 20 {
      Choice(x, y, z);
    } else if t < 40 {
      Parities(x, y, z);
    } else if t < 60 {
      Majority(x, y, z);
    } else {
      Parities(x, y, z);
    }
    hide F1, F2, F3, Ch, Parity, Maj;
  }

  /** What the source adds to the fifth register, `e`. */
  function AddedTo(e: Word, r: Word, f: Word, k: Word, w: Word): Word { e + (r + f + k + w) }

  lemma LastAdded(r: Word, f: Word, e: Word, k: Word, w: Word)
    ensures AddedTo(e, r, f, k, w) == Sum5(r, f, e, k, w)
  {
  }

  function At(s: seq<Word>, a: nat, b: nat, c: nat, d: nat, e: nat): Registers
    requires |s| == 5 && a < 5 && b < 5 && c < 5 && d < 5 && e < 5
  {
    Registers(s[a], s[b], s[c], s[d], s[e])
  }

  predicate Distinct5(a: nat, b: nat, c: nat, d: nat, e: nat) {
    && a < 5 && b < 5 && c < 5 && d < 5 && e < 5
    && a != b && a != c && a != d && a != e && b != c && b != d && b != e && c != d && c != e && d != e
  }

  /** `P_SHA1_ROUND_0` to `P_SHA1_ROUND_3`: one round in place; the registers of the standard round are read from the
      next place on. */
  method RoundInPlace(R: array<Word>, a: nat, b: nat, c: nat, d: nat, e: nat, t: nat, w: Word)
    requires R.Length == 5 && Distinct5(a, b, c, d, e)
    modifies R
    ensures At(R[..], e, a, b, c, d) == Round(old(At(R[..], a, b, c, d, e)), t, w)
  {
    MacroIs(t, R[b], R[c], R[d]);
    LastAdded(Rotl(R[a], 5), F(t, R[b], R[c], R[d]), R[e], Constant(t), w);
    Rotates(R[a], 5);
    Rotates(R[b], 30);
    hide Rotl, RotL, F, Macro, Constant, AddedTo, Sum5;
    R[e] := AddedTo(R[e], RotL(R[a], 5), Macro(t, R[b], R[c], R[d]), Constant(t), w);
    R[b] := RotL(R[b], 30);
  }

  lemma NextRound(h: seq<Word>, block: seq<Word>, t: nat)
    requires |h| == 5 && |block| == 16
    ensures Rounds(h, block, t + 1) == Round(Rounds(h, block, t), t, Schedule(block, t))
  {
    hide Round, Schedule;
  }

  /** The window holds the sixteen words of the schedule before word `t`, or the block at the start. */
  ghost predicate Window(W: array<Word>, block: seq<Word>, t: nat)
    reads W
  {
    && W.Length == 16 && |block| == 16
    && forall j :: t - 16 <= j < t && 0 <= j ==> W[j % 16] == Schedule(block, j)
  }

  ghost predicate Ready(W: array<Word>, block: seq<Word>, t: nat)
    reads W
  {
    Window(W, block, if t < 16 then 16 else t)
  }

  lemma ScheduleGoesOn(block: seq<Word>, t: nat)
    requires |block| == 16 && 16 <= t
    ensures Schedule(block, t) ==
      Mixed(Schedule(block, t - 3), Schedule(block, t - 8), Schedule(block, t - 14), Schedule(block, t - 16))
  {
    hide Mixed;
  }

  function Xor4(a: Word, b: Word, c: Word, d: Word): Word { a ^ b ^ c ^ d }

  lemma Mixes(a: Word, b: Word, c: Word, d: Word)
    ensures RotL(Xor4(a, b, c, d), 1) == Mixed(a, b, c, d)
  {
    Rotates(Xor4(a, b, c, d), 1);
    hide Rotl, RotL;
  }

  /** Word `t` takes the place of the oldest word of the window and of no other. */
  lemma OtherPlaces(t: nat)
    requires 16 <= t
    ensures (t - 16) % 16 == t % 16 && forall j :: t - 16 < j < t ==> j % 16 != t % 16
  {
  }

  /** The word for round `t`: from the block, or by `P_SHA1_W`, which overwrites the oldest word of the window. */
  method NextWord(W: array<Word>, t: nat, ghost block: seq<Word>) returns (w: Word)
    requires Ready(W, block, t)
    modifies W
    ensures Ready(W, block, t + 1) && w == Schedule(block, t)
  {
    if t < 16 {
      assert t % 16 == t;
      return W[t];
    }
    ScheduleGoesOn(block, t);
    OtherPlaces(t);
    hide Mixed, Schedule, RotL, Xor4;
    Mixes(W[(t - 3) % 16], W[(t - 8) % 16], W[(t - 14) % 16], W[(t - 16) % 16]);
    w := RotL(Xor4(W[(t - 3) % 16], W[(t - 8) % 16], W[(t - 14) % 16], W[(t - 16) % 16]), 1);
    W[t % 16] := w;
  }

  /** Round `t` with its word. */
  method NextWordAndRound(R: array<Word>, W: array<Word>, a: nat, b: nat, c: nat, d: nat, e: nat, t: nat,
                          ghost h: seq<Word>, ghost block: seq<Word>)
    requires R.Length == 5 && R != W && |h| == 5 && Ready(W, block, t) && |block| == 16 && Distinct5(a, b, c, d, e)
    requires At(R[..], a, b, c, d, e) == Rounds(h, block, t)
    modifies R, W
    ensures At(R[..], e, a, b, c, d) == Rounds(h, block, t + 1) && Ready(W, block, t + 1)
  {
    hide Round, Rounds, Schedule;
    var w := NextWord(W, t, block);
    RoundInPlace(R, a, b, c, d, e, t, w);
    NextRound(h, block, t);
  }

  lemma AtStart(R: array<Word>, W: array<Word>, h: seq<Word>, block: seq<Word>)
    requires R.Length == 5 && R[..] == h && W[..] == block && |h| == 5 && |block| == 16
    ensures At(R[..], 0, 1, 2, 3, 4) == Rounds(h, block, 0) && Ready(W, block, 0)
  {
    forall j | 0 <= j < 16
      ensures W[j % 16] == Schedule(block, j)
    {
      assert W[j] == W[..][j];
    }
  }

  /** Five rounds, after which the names of the registers come round. */
  method FiveRounds(R: array<Word>, W: array<Word>, t: nat, ghost h: seq<Word>, ghost block: seq<Word>)
    requires R.Length == 5 && R != W && |h| == 5 && |block| == 16 && Ready(W, block, t)
    requires At(R[..], 0, 1, 2, 3, 4) == Rounds(h, block, t)
    modifies R, W
    ensures At(R[..], 0, 1, 2, 3, 4) == Rounds(h, block, t + 5) && Ready(W, block, t + 5)
  {
    hide At, Rounds, Ready;
    NextWordAndRound(R, W, 0, 1, 2, 3, 4, t, h, block);
    NextWordAndRound(R, W, 4, 0, 1, 2, 3, t + 1, h, block);
    NextWordAndRound(R, W, 3, 4, 0, 1, 2, t + 2, h, block);
    NextWordAndRound(R, W, 2, 3, 4, 0, 1, t + 3, h, block);
    NextWordAndRound(R, W, 1, 2, 3, 4, 0, t + 4, h, block);
  }

  /** The eighty rounds, which the source writes out one by one. */
  method RunRounds(R: array<Word>, W: array<Word>, ghost h: seq<Word>, ghost block: seq<Word>)
    requires R.Length == 5 && R != W && R[..] == h && W[..] == block && |h| == 5 && |block| == 16
    modifies R, W
    ensures At(R[..], 0, 1, 2, 3, 4) == Rounds(h, block, 80)
  {
    hide *;
    AtStart(R, W, h, block);
    var t := 0;
    while t < 80
      invariant t <= 80 && t % 5 == 0
      invariant At(R[..], 0, 1, 2, 3, 4) == Rounds(h, block, t) && Ready(W, block, t)
    {
      FiveRounds(R, W, t, h, block);
      t := t + 5;
    }
  }

  lemma AddedWords(h: seq<Word>, r: seq<Word>, block: seq<Word>)
    requires |h| == 5 && |r| == 5 && |block| == 16 && At(r, 0, 1, 2, 3, 4) == Rounds(h, block, 80)
    ensures [Plus(h[0], r[0]), Plus(h[1], r[1]), Plus(h[2], r[2]), Plus(h[3], r[3]), Plus(h[4], r[4])] ==
            Compressed(h, block)
  {
    hide Plus, Rounds;
  }

  /** Copies of the hash value and of the block to work on. */
  method Prepare(hash: array<Word>, data: seq<Word>) returns (R: array<Word>, W: array<Word>)
    requires hash.Length == 5 && |data| == 16
    ensures fresh(R) && fresh(W) && R != W && R[..] == hash[..] && W[..] == data
  {
    R, W := new Word[5], new Word[16];
    for i := 0 to 5
      invariant R[..i] == hash[..i]
      modifies R
    {
      R[i] := hash[i];
    }
    for i := 0 to 16
      invariant W[..i] == data[..i]
      modifies W
    {
      W[i] := data[i];
    }
  }

  /** `pp_crypto_hash_sha1_process`. */
  method Process(hash: array<Word>, data: seq<Word>)
    requires hash.Length == 5 && |data| == 16
    modifies hash
    ensures hash[..] == Compressed(old(hash[..]), data)
  {
    hide *;
    var R, W := Prepare(hash, data);
    RunRounds(R, W, hash[..], data);
    AddedWords(hash[..], R[..], data);
    hash[0] := Plus(hash[0], R[0]);
    hash[1] := Plus(hash[1], R[1]);
    hash[2] := Plus(hash[2], R[2]);
    hash[3] := Plus(hash[3], R[3]);
    hash[4] := Plus(hash[4], R[4]);
  }
}
