// The compression of SHA-512 and SHA-384, plibsys/src/pcryptohash-sha2-512.c.

module Sha512 {
  import opened EightRegisters
  import opened Sha512Standard
  import opened Words64

  // ----- the macros of the compression function -----

  function RotR(val: Word, shift: Word): Word
    requires 0 < shift < 64
  {
    (val >> shift) | (val << (64 - shift))
  }

  function Xor3(x: Word, y: Word, z: Word): Word { x ^ y ^ z }

  function S0(x: Word): Word { Xor3(RotR(x, 1), RotR(x, 8), x >> 7) }

  function S1(x: Word): Word { Xor3(RotR(x, 19), RotR(x, 61), x >> 6) }

  function S2(x: Word): Word { Xor3(RotR(x, 28), RotR(x, 34), RotR(x, 39)) }

  function S3(x: Word): Word { Xor3(RotR(x, 14), RotR(x, 18), RotR(x, 41)) }

  function F0(x: Word, y: Word, z: Word): Word { (x & y) | (z & (x | y)) }

  function F1(x: Word, y: Word, z: Word): Word { z ^ (x & (y ^ z)) }

  lemma Xor3Is(x: Word, y: Word, z: Word)
    ensures Xor3(x, y, z) == x ^ y ^ z
  {
  }

  lemma Rotates(x: Word, n: Word)
    requires 0 < n < 64
    ensures RotR(x, n) == Rotr(x, n)
  {
  }

  lemma S0Is(x: Word)
    ensures S0(x) == SmallSigma0(x)
  {
    hide RotR, Rotr, Xor3;
    Xor3Is(Rotr(x, 1), Rotr(x, 8), x >> 7);
    Rotates(x, 1);
    Rotates(x, 8);
  }

  lemma S1Is(x: Word)
    ensures S1(x) == SmallSigma1(x)
  {
    hide RotR, Rotr, Xor3;
    Xor3Is(Rotr(x, 19), Rotr(x, 61), x >> 6);
    Rotates(x, 19);
    Rotates(x, 61);
  }

  lemma S2Is(x: Word)
    ensures S2(x) == BigSigma0(x)
  {
    hide RotR, Rotr, Xor3;
    Xor3Is(Rotr(x, 28), Rotr(x, 34), Rotr(x, 39));
    Rotates(x, 28);
    Rotates(x, 34);
    Rotates(x, 39);
  }

  lemma S3Is(x: Word)
    ensures S3(x) == BigSigma1(x)
  {
    hide RotR, Rotr, Xor3;
    Xor3Is(Rotr(x, 14), Rotr(x, 18), Rotr(x, 41));
    Rotates(x, 14);
    Rotates(x, 18);
    Rotates(x, 41);
  }

  lemma MajorityBits(x: bv64, y: bv64, z: bv64)
    ensures (x & y) | (z & (x | y)) == (x & y) ^ (x & z) ^ (y & z)
  {
  }

  lemma ChoiceBits(x: bv64, y: bv64, z: bv64)
    ensures z ^ (x & (y ^ z)) == (x & y) ^ (!x & z)
  {
  }

  lemma F0IsMaj(x: Word, y: Word, z: Word)
    ensures F0(x, y, z) == Maj(x, y, z)
  {
    MajorityBits(x, y, z);
  }

  lemma F1IsCh(x: Word, y: Word, z: Word)
    ensures F1(x, y, z) == Ch(x, y, z)
  {
    ChoiceBits(x, y, z);
  }

  /** `P_SHA2_512_P`: one round in place. Instead of moving the eight registers on it writes two of them; read from the
      next place on, they are the registers of a standard round. */
  method RoundInPlace(A: array<Word>, a: nat, b: nat, c: nat, d: nat, e: nat, f: nat, g: nat, h: nat, x: Word, k: Word)
    requires A.Length == 8 && Distinct8(a, b, c, d, e, f, g, h)
    modifies A
    ensures At(A[..], h, a, b, c, d, e, f, g) == Round(old(At(A[..], a, b, c, d, e, f, g, h)), k, x)
  {
    hide Plus, BigSigma0, BigSigma1, S2, S3, F0, F1, Ch, Maj;
    S2Is(A[a]);
    S3Is(A[e]);
    F0IsMaj(A[a], A[b], A[c]);
    F1IsCh(A[e], A[f], A[g]);
    var tmpSum1 := Plus(Plus(Plus(Plus(A[h], S3(A[e])), F1(A[e], A[f], A[g])), k), x);
    var tmpSum2 := Plus(S2(A[a]), F0(A[a], A[b], A[c]));
    A[d] := Plus(A[d], tmpSum1);
    A[h] := Plus(tmpSum1, tmpSum2);
  }

  /** One turn of the round loop: eight rounds under eight rotations of the register names. */
  method EightRounds(A: array<Word>, W: array<Word>, i: nat, ghost h: seq<Word>, ghost block: seq<Word>)
    requires A.Length == 8 && W.Length == 80 && A != W && |h| == 8 && |block| == 16 && i + 8 <= 80
    requires forall t :: 0 <= t < 80 ==> W[t] == Schedule(block, t)
    requires RegistersOf(A[..]) == Rounds(h, block, i)
    modifies A
    ensures RegistersOf(A[..]) == Rounds(h, block, i + 8)
  {
    hide Round, Rounds, Constant, Schedule;
    RoundInPlace(A, 0, 1, 2, 3, 4, 5, 6, 7, W[i + 0], Constant(i + 0));
    NextRound(h, block, i + 0);
    assert At(A[..], 7, 0, 1, 2, 3, 4, 5, 6) == Rounds(h, block, i + 1);
    RoundInPlace(A, 7, 0, 1, 2, 3, 4, 5, 6, W[i + 1], Constant(i + 1));
    NextRound(h, block, i + 1);
    assert At(A[..], 6, 7, 0, 1, 2, 3, 4, 5) == Rounds(h, block, i + 2);
    RoundInPlace(A, 6, 7, 0, 1, 2, 3, 4, 5, W[i + 2], Constant(i + 2));
    NextRound(h, block, i + 2);
    assert At(A[..], 5, 6, 7, 0, 1, 2, 3, 4) == Rounds(h, block, i + 3);
    RoundInPlace(A, 5, 6, 7, 0, 1, 2, 3, 4, W[i + 3], Constant(i + 3));
    NextRound(h, block, i + 3);
    assert At(A[..], 4, 5, 6, 7, 0, 1, 2, 3) == Rounds(h, block, i + 4);
    RoundInPlace(A, 4, 5, 6, 7, 0, 1, 2, 3, W[i + 4], Constant(i + 4));
    NextRound(h, block, i + 4);
    assert At(A[..], 3, 4, 5, 6, 7, 0, 1, 2) == Rounds(h, block, i + 5);
    RoundInPlace(A, 3, 4, 5, 6, 7, 0, 1, 2, W[i + 5], Constant(i + 5));
    NextRound(h, block, i + 5);
    assert At(A[..], 2, 3, 4, 5, 6, 7, 0, 1) == Rounds(h, block, i + 6);
    RoundInPlace(A, 2, 3, 4, 5, 6, 7, 0, 1, W[i + 6], Constant(i + 6));
    NextRound(h, block, i + 6);
    assert At(A[..], 1, 2, 3, 4, 5, 6, 7, 0) == Rounds(h, block, i + 7);
    RoundInPlace(A, 1, 2, 3, 4, 5, 6, 7, 0, W[i + 7], Constant(i + 7));
    NextRound(h, block, i + 7);
  }

  lemma NextRound(h: seq<Word>, block: seq<Word>, t: nat)
    requires |h| == 8 && |block| == 16 && t < 80
    ensures Rounds(h, block, t + 1) == Round(Rounds(h, block, t), Constant(t), Schedule(block, t))
  {
    hide Round, Constant, Schedule;
  }

  method Expand(data: seq<Word>) returns (W: array<Word>)
    requires |data| == 16
    ensures fresh(W) && W.Length == 80
    ensures forall t :: 0 <= t < 80 ==> W[t] == Schedule(data, t)
  {
    hide Plus, SmallSigma0, SmallSigma1, S0, S1;
    W := new Word[80];
    for i := 0 to 16
      invariant forall t :: 0 <= t < i ==> W[t] == data[t]
    {
      W[i] := data[i];
    }
    for i := 16 to 80
      invariant forall t :: 0 <= t < i ==> W[t] == Schedule(data, t)
    {
      S1Is(W[i - 2]);
      S0Is(W[i - 15]);
      W[i] := Plus(Plus(Plus(S1(W[i - 2]), W[i - 7]), S0(W[i - 15])), W[i - 16]);
    }
  }

  /** The eighty rounds, on a copy of the hash value. */
  method RunRounds(hash: array<Word>, data: seq<Word>) returns (A: array<Word>)
    requires hash.Length == 8 && |data| == 16
    ensures fresh(A) && A.Length == 8 && RegistersOf(A[..]) == Rounds(hash[..], data, 80)
  {
    hide Round, Constant, Schedule, Plus;
    A := new Word[8];
    for i := 0 to 8
      invariant forall j :: 0 <= j < i ==> A[j] == hash[j]
    {
      A[i] := hash[i];
    }
    assert A[..] == hash[..];
    var W := Expand(data);
    var i := 0;
    while i < 80
      invariant i <= 80 && i % 8 == 0
      invariant RegistersOf(A[..]) == Rounds(hash[..], data, i)
      modifies A
    {
      EightRounds(A, W, i, hash[..], data);
      i := i + 8;
    }
  }

  lemma AddedWords(h: seq<Word>, a: seq<Word>, s: seq<Word>)
    requires |h| == 8 && |a| == 8 && |s| == 8
    requires forall k :: 0 <= k < 8 ==> s[k] == Plus(h[k], a[k])
    ensures s == Added(h, RegistersOf(a))
  {
    hide Plus;
    var d := Added(h, RegistersOf(a));
    assert d[0] == s[0] && d[1] == s[1] && d[2] == s[2] && d[3] == s[3];
    assert d[4] == s[4] && d[5] == s[5] && d[6] == s[6] && d[7] == s[7];
  }

  /** `pp_crypto_hash_sha2_512_process`. */
  method Process(hash: array<Word>, data: seq<Word>)
    requires hash.Length == 8 && |data| == 16
    modifies hash
    ensures hash[..] == Compressed(old(hash[..]), data)
  {
    hide Rounds, Plus, Added, RegistersOf;
    var A := RunRounds(hash, data);
    ghost var a := A[..];
    assert Compressed(hash[..], data) == Added(hash[..], RegistersOf(a));
    for j := 0 to 8
      invariant forall k :: 0 <= k < j ==> hash[k] == Plus(old(hash[k]), a[k])
      invariant forall k :: j <= k < 8 ==> hash[k] == old(hash[k])
      modifies hash
    {
      hash[j] := Plus(hash[j], A[j]);
    }
    AddedWords(old(hash[..]), a, hash[..]);
  }
}
