// The SHA-256 compression of plibsys/src/pcryptohash-sha2-256.c, which computes its schedule inside the rounds,
// against FIPS 180-4.

module Sha256 {
  import opened EightRegisters
  import opened Words32

  // ----- the standard: sections 3.2, 4.1.2, 4.2.2 and 6.2.2 -----

  function Rotr(x: Word, n: Word): Word
    requires 0 < n < 32
  {
    (x >> n) | (x << (32 - n))
  }

  function Ch(x: Word, y: Word, z: Word): Word { (x & y) ^ (!x & z) }

  function Maj(x: Word, y: Word, z: Word): Word { (x & y) ^ (x & z) ^ (y & z) }

  function BigSigma0(x: Word): Word { Rotr(x, 2) ^ Rotr(x, 13) ^ Rotr(x, 22) }

  function BigSigma1(x: Word): Word { Rotr(x, 6) ^ Rotr(x, 11) ^ Rotr(x, 25) }

  function SmallSigma0(x: Word): Word { Rotr(x, 7) ^ Rotr(x, 18) ^ (x >> 3) }

  function SmallSigma1(x: Word): Word { Rotr(x, 17) ^ Rotr(x, 19) ^ (x >> 10) }

  /** The constants, four in a row. */
  function Row(i: nat): (k: seq<Word>)
    requires i < 16
    ensures |k| == 4
  {
    if i == 0 then [0x428A2F98, 0x71374491, 0xB5C0FBCF, 0xE9B5DBA5]
    else if i == 1 then [0x3956C25B, 0x59F111F1, 0x923F82A4, 0xAB1C5ED5]
    else if i == 2 then [0xD807AA98, 0x12835B01, 0x243185BE, 0x550C7DC3]
    else if i == 3 then [0x72BE5D74, 0x80DEB1FE, 0x9BDC06A7, 0xC19BF174]
    else if i == 4 then [0xE49B69C1, 0xEFBE4786, 0x0FC19DC6, 0x240CA1CC]
    else if i == 5 then [0x2DE92C6F, 0x4A7484AA, 0x5CB0A9DC, 0x76F988DA]
    else if i == 6 then [0x983E5152, 0xA831C66D, 0xB00327C8, 0xBF597FC7]
    else if i == 7 then [0xC6E00BF3, 0xD5A79147, 0x06CA6351, 0x14292967]
    else if i == 8 then [0x27B70A85, 0x2E1B2138, 0x4D2C6DFC, 0x53380D13]
    else if i == 9 then [0x650A7354, 0x766A0ABB, 0x81C2C92E, 0x92722C85]
    else if i == 10 then [0xA2BFE8A1, 0xA81A664B, 0xC24B8B70, 0xC76C51A3]
    else if i == 11 then [0xD192E819, 0xD6990624, 0xF40E3585, 0x106AA070]
    else if i == 12 then [0x19A4C116, 0x1E376C08, 0x2748774C, 0x34B0BCB5]
    else if i == 13 then [0x391C0CB3, 0x4ED8AA4A, 0x5B9CCA4F, 0x682E6FF3]
    else if i == 14 then [0x748F82EE, 0x78A5636F, 0x84C87814, 0x8CC70208]
    else [0x90BEFFFA, 0xA4506CEB, 0xBEF9A3F7, 0xC67178F2]
  }

  function Constant(t: nat): Word
    requires t < 64
  {
    Row(t / 4)[t % 4]
  }

  function Schedule(block: seq<Word>, t: nat): Word
    requires |block| == 16
  {
    if t < 16 then block[t]
    else
      Plus(Plus(Plus(SmallSigma1(Schedule(block, t - 2)), Schedule(block, t - 7)),
                SmallSigma0(Schedule(block, t - 15))), Schedule(block, t - 16))
  }

  function Round(r: Registers<Word>, k: Word, w: Word): Registers<Word> {
    var t1 := Plus(Plus(Plus(Plus(r.h, BigSigma1(r.e)), Ch(r.e, r.f, r.g)), k), w);
    var t2 := Plus(BigSigma0(r.a), Maj(r.a, r.b, r.c));
    Registers(Plus(t1, t2), r.a, r.b, r.c, Plus(r.d, t1), r.e, r.f, r.g)
  }

  /** The registers after the first `t` rounds. */
  function Rounds(h: seq<Word>, block: seq<Word>, t: nat): Registers<Word>
    requires |h| == 8 && |block| == 16 && t <= 64
  {
    if t == 0 then RegistersOf(h)
    else Round(Rounds(h, block, t - 1), Constant(t - 1), Schedule(block, t - 1))
  }

  function Compressed(h: seq<Word>, block: seq<Word>): (s: seq<Word>)
    requires |h| == 8 && |block| == 16
    ensures |s| == 8
  {
    var r := Rounds(h, block, 64);
    [Plus(h[0], r.a), Plus(h[1], r.b), Plus(h[2], r.c), Plus(h[3], r.d),
     Plus(h[4], r.e), Plus(h[5], r.f), Plus(h[6], r.g), Plus(h[7], r.h)]
  }

  // ----- the source -----

  function RotR(val: Word, shift: Word): Word
    requires 0 < shift < 32
  {
    (val >> shift) | (val << (32 - shift))
  }

  function Xor3(x: Word, y: Word, z: Word): Word { x ^ y ^ z }

  function S0(x: Word): Word { Xor3(RotR(x, 7), RotR(x, 18), x >> 3) }

  function S1(x: Word): Word { Xor3(RotR(x, 17), RotR(x, 19), x >> 10) }

  function S2(x: Word): Word { Xor3(RotR(x, 2), RotR(x, 13), RotR(x, 22)) }

  function S3(x: Word): Word { Xor3(RotR(x, 6), RotR(x, 11), RotR(x, 25)) }

  function F0(x: Word, y: Word, z: Word): Word { (x & y) | (z & (x | y)) }

  function F1(x: Word, y: Word, z: Word): Word { z ^ (x & (y ^ z)) }

  lemma Xor3Is(x: Word, y: Word, z: Word)
    ensures Xor3(x, y, z) == x ^ y ^ z
  {
  }

  lemma Rotates(x: Word, n: Word)
    requires 0 < n < 32
    ensures RotR(x, n) == Rotr(x, n)
  {
  }

  lemma S0Is(x: Word)
    ensures S0(x) == SmallSigma0(x)
  {
    hide RotR, Rotr, Xor3;
    Xor3Is(Rotr(x, 7), Rotr(x, 18), x >> 3);
    Rotates(x, 7);
    Rotates(x, 18);
  }

  lemma S1Is(x: Word)
    ensures S1(x) == SmallSigma1(x)
  {
    hide RotR, Rotr, Xor3;
    Xor3Is(Rotr(x, 17), Rotr(x, 19), x >> 10);
    Rotates(x, 17);
    Rotates(x, 19);
  }

  lemma S2Is(x: Word)
    ensures S2(x) == BigSigma0(x)
  {
    hide RotR, Rotr, Xor3;
    Xor3Is(Rotr(x, 2), Rotr(x, 13), Rotr(x, 22));
    Rotates(x, 2);
    Rotates(x, 13);
    Rotates(x, 22);
  }

  lemma S3Is(x: Word)
    ensures S3(x) == BigSigma1(x)
  {
    hide RotR, Rotr, Xor3;
    Xor3Is(Rotr(x, 6), Rotr(x, 11), Rotr(x, 25));
    Rotates(x, 6);
    Rotates(x, 11);
    Rotates(x, 25);
  }

  lemma MajorityBits(x: bv32, y: bv32, z: bv32)
    ensures (x & y) | (z & (x | y)) == (x & y) ^ (x & z) ^ (y & z)
  {
  }

  lemma ChoiceBits(x: bv32, y: bv32, z: bv32)
    ensures z ^ (x & (y ^ z)) == (x & y) ^ (!x & z)
  {
  }

  lemma MacrosAre(x: Word, y: Word, z: Word)
    ensures F0(x, y, z) == Maj(x, y, z) && F1(x, y, z) == Ch(x, y, z)
  {
    MajorityBits(x, y, z);
    ChoiceBits(x, y, z);
  }

  /** `P_SHA2_256_P`: one round in place; the registers of the standard round are read from the next place on. */
  method RoundInPlace(A: array<Word>, a: nat, b: nat, c: nat, d: nat, e: nat, f: nat, g: nat, h: nat, x: Word, k: Word)
    requires A.Length == 8 && Distinct8(a, b, c, d, e, f, g, h)
    modifies A
    ensures At(A[..], h, a, b, c, d, e, f, g) == Round(old(At(A[..], a, b, c, d, e, f, g, h)), k, x)
  {
    hide Plus, BigSigma0, BigSigma1, S2, S3, F0, F1, Ch, Maj;
    S2Is(A[a]);
    S3Is(A[e]);
    MacrosAre(A[a], A[b], A[c]);
    MacrosAre(A[e], A[f], A[g]);
    var tmpSum1 := Plus(Plus(Plus(Plus(A[h], S3(A[e])), F1(A[e], A[f], A[g])), k), x);
    var tmpSum2 := Plus(S2(A[a]), F0(A[a], A[b], A[c]));
    A[d] := Plus(A[d], tmpSum1);
    A[h] := Plus(tmpSum1, tmpSum2);
  }

  lemma NextRound(h: seq<Word>, block: seq<Word>, t: nat)
    requires |h| == 8 && |block| == 16 && t < 64
    ensures Rounds(h, block, t + 1) == Round(Rounds(h, block, t), Constant(t), Schedule(block, t))
  {
    hide Round, Constant, Schedule;
  }

  /** The first `n` words of the schedule are there. */
  ghost predicate Scheduled(W: array<Word>, block: seq<Word>, n: nat)
    reads W
  {
    W.Length == 64 && |block| == 16 && 16 <= n <= 64 && forall t :: 0 <= t < n ==> W[t] == Schedule(block, t)
  }

  /** `P_SHA2_256_R`. */
  method NextWord(W: array<Word>, t: nat, ghost block: seq<Word>)
    requires Scheduled(W, block, t) && t < 64
    modifies W
    ensures Scheduled(W, block, t + 1)
  {
    S1Is(W[t - 2]);
    S0Is(W[t - 15]);
    hide Plus, SmallSigma0, SmallSigma1, S0, S1;
    W[t] := Plus(Plus(Plus(S1(W[t - 2]), W[t - 7]), S0(W[t - 15])), W[t - 16]);
  }

  /** One turn of the first round loop, on the words of the block. */
  method EightRounds(A: array<Word>, W: array<Word>, i: nat, ghost h: seq<Word>, ghost block: seq<Word>)
    requires A.Length == 8 && A != W && |h| == 8 && i + 8 <= 16 && Scheduled(W, block, 16)
    requires RegistersOf(A[..]) == Rounds(h, block, i)
    modifies A
    ensures RegistersOf(A[..]) == Rounds(h, block, i + 8)
  {
    hide Round, Rounds, Constant, Schedule;
    RoundInPlace(A, 0, 1, 2, 3, 4, 5, 6, 7, W[i + 0], Constant(i + 0));
    NextRound(h, block, i + 0);
    assert At(A[..], 7, 0, 1, 2, 3, 4, 5, 6) == Rounds(h, block, i + 1);
    RoundInPlace(A, 7, 0, 1, 2, 3, 4, 5, 6, W[i + 1], Constant(i + 1));
    NextRound(h, block, i + 1);
    assert At(A[..], 6, 7, 0, 1, 2, 3, 4, 5) == Rounds(h, block, i + 2);
    RoundInPlace(A, 6, 7, 0, 1, 2, 3, 4, 5, W[i + 2], Constant(i + 2));
    NextRound(h, block, i + 2);
    assert At(A[..], 5, 6, 7, 0, 1, 2, 3, 4) == Rounds(h, block, i + 3);
    RoundInPlace(A, 5, 6, 7, 0, 1, 2, 3, 4, W[i + 3], Constant(i + 3));
    NextRound(h, block, i + 3);
    assert At(A[..], 4, 5, 6, 7, 0, 1, 2, 3) == Rounds(h, block, i + 4);
    RoundInPlace(A, 4, 5, 6, 7, 0, 1, 2, 3, W[i + 4], Constant(i + 4));
    NextRound(h, block, i + 4);
    assert At(A[..], 3, 4, 5, 6, 7, 0, 1, 2) == Rounds(h, block, i + 5);
    RoundInPlace(A, 3, 4, 5, 6, 7, 0, 1, 2, W[i + 5], Constant(i + 5));
    NextRound(h, block, i + 5);
    assert At(A[..], 2, 3, 4, 5, 6, 7, 0, 1) == Rounds(h, block, i + 6);
    RoundInPlace(A, 2, 3, 4, 5, 6, 7, 0, 1, W[i + 6], Constant(i + 6));
    NextRound(h, block, i + 6);
    assert At(A[..], 1, 2, 3, 4, 5, 6, 7, 0) == Rounds(h, block, i + 7);
    RoundInPlace(A, 1, 2, 3, 4, 5, 6, 7, 0, W[i + 7], Constant(i + 7));
    NextRound(h, block, i + 7);
  }

  /** Round `t` with the word that it computes first. */
  method NextWordAndRound(A: array<Word>, W: array<Word>, a: nat, b: nat, c: nat, d: nat, e: nat, f: nat, g: nat,
                          k: nat, t: nat, ghost h: seq<Word>, ghost block: seq<Word>)
    requires A.Length == 8 && A != W && |h| == 8 && t < 64 && Scheduled(W, block, t)
    requires Distinct8(a, b, c, d, e, f, g, k)
    requires At(A[..], a, b, c, d, e, f, g, k) == Rounds(h, block, t)
    modifies A, W
    ensures At(A[..], k, a, b, c, d, e, f, g) == Rounds(h, block, t + 1) && Scheduled(W, block, t + 1)
  {
    hide Round, Rounds, Constant, Schedule;
    NextWord(W, t, block);
    RoundInPlace(A, a, b, c, d, e, f, g, k, W[t], Constant(t));
    NextRound(h, block, t);
  }

  /** One turn of the second round loop, which computes each word just before its round. */
  method EightMoreRounds(A: array<Word>, W: array<Word>, i: nat, ghost h: seq<Word>, ghost block: seq<Word>)
    requires A.Length == 8 && A != W && |h| == 8 && i + 8 <= 64 && Scheduled(W, block, i)
    requires RegistersOf(A[..]) == Rounds(h, block, i)
    modifies A, W
    ensures RegistersOf(A[..]) == Rounds(h, block, i + 8) && Scheduled(W, block, i + 8)
  {
    hide At, Rounds, Scheduled;
    NextWordAndRound(A, W, 0, 1, 2, 3, 4, 5, 6, 7, i + 0, h, block);
    NextWordAndRound(A, W, 7, 0, 1, 2, 3, 4, 5, 6, i + 1, h, block);
    NextWordAndRound(A, W, 6, 7, 0, 1, 2, 3, 4, 5, i + 2, h, block);
    NextWordAndRound(A, W, 5, 6, 7, 0, 1, 2, 3, 4, i + 3, h, block);
    NextWordAndRound(A, W, 4, 5, 6, 7, 0, 1, 2, 3, i + 4, h, block);
    NextWordAndRound(A, W, 3, 4, 5, 6, 7, 0, 1, 2, i + 5, h, block);
    NextWordAndRound(A, W, 2, 3, 4, 5, 6, 7, 0, 1, i + 6, h, block);
    NextWordAndRound(A, W, 1, 2, 3, 4, 5, 6, 7, 0, i + 7, h, block);
  }

  /** Copies of the hash value and of the block to work on. */
  method Prepare(hash: array<Word>, data: seq<Word>) returns (A: array<Word>, W: array<Word>)
    requires hash.Length == 8 && |data| == 16
    ensures fresh(A) && fresh(W) && A != W && A[..] == hash[..] && Scheduled(W, data, 16)
  {
    A := new Word[8];
    for i := 0 to 8
      invariant A[..i] == hash[..i]
    {
      A[i] := hash[i];
    }
    W := new Word[64];
    for i := 0 to 16
      invariant forall t :: 0 <= t < i ==> W[t] == data[t]
      modifies W
    {
      W[i] := data[i];
    }
  }

  /** The sixty-four rounds. */
  method RunRounds(hash: array<Word>, data: seq<Word>) returns (A: array<Word>)
    requires hash.Length == 8 && |data| == 16
    ensures fresh(A) && A.Length == 8 && RegistersOf(A[..]) == Rounds(hash[..], data, 64)
  {
    hide Round, Constant, Schedule, Scheduled, RegistersOf;
    var W;
    A, W := Prepare(hash, data);
    EightRounds(A, W, 0, hash[..], data);
    EightRounds(A, W, 8, hash[..], data);
    var i := 16;
    while i < 64
      invariant 16 <= i <= 64 && i % 8 == 0
      invariant RegistersOf(A[..]) == Rounds(hash[..], data, i) && Scheduled(W, data, i)
      modifies A, W
    {
      EightMoreRounds(A, W, i, hash[..], data);
      i := i + 8;
    }
  }

  lemma AddedWords(h: seq<Word>, a: seq<Word>, block: seq<Word>, s: seq<Word>)
    requires |h| == 8 && |a| == 8 && |s| == 8 && |block| == 16 && RegistersOf(a) == Rounds(h, block, 64)
    requires forall k :: 0 <= k < 8 ==> s[k] == Plus(h[k], a[k])
    ensures s == Compressed(h, block)
  {
    hide Plus, Rounds;
    var d := Compressed(h, block);
    assert d[0] == s[0] && d[1] == s[1] && d[2] == s[2] && d[3] == s[3];
    assert d[4] == s[4] && d[5] == s[5] && d[6] == s[6] && d[7] == s[7];
  }

  /** `pp_crypto_hash_sha2_256_process`. */
  method Process(hash: array<Word>, data: seq<Word>)
    requires hash.Length == 8 && |data| == 16
    modifies hash
    ensures hash[..] == Compressed(old(hash[..]), data)
  {
    hide Rounds, Plus, Compressed, RegistersOf;
    var A := RunRounds(hash, data);
    ghost var a := A[..];
    for j := 0 to 8
      invariant forall k :: 0 <= k < j ==> hash[k] == Plus(old(hash[k]), a[k])
      invariant forall k :: j <= k < 8 ==> hash[k] == old(hash[k])
      modifies hash
    {
      hash[j] := Plus(hash[j], A[j]);
    }
    AddedWords(old(hash[..]), a, data, hash[..]);
  }
}
