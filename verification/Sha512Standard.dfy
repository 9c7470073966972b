// SHA-512 and SHA-384 as FIPS 180-4 defines them.

module Sha512Standard {
  import opened Buffer
  import opened EightRegisters
  import opened Words64

  type Byte = bv8

  // ----- functions and constants, sections 3.2, 4.1.3 and 4.2.3 -----

  function Rotr(x: Word, n: Word): Word
    requires 0 < n < 64
  {
    (x >> n) | (x << (64 - n))
  }

  function Ch(x: Word, y: Word, z: Word): Word { (x & y) ^ (!x & z) }

  function Maj(x: Word, y: Word, z: Word): Word { (x & y) ^ (x & z) ^ (y & z) }

  function BigSigma0(x: Word): Word { Rotr(x, 28) ^ Rotr(x, 34) ^ Rotr(x, 39) }

  function BigSigma1(x: Word): Word { Rotr(x, 14) ^ Rotr(x, 18) ^ Rotr(x, 41) }

  function SmallSigma0(x: Word): Word { Rotr(x, 1) ^ Rotr(x, 8) ^ (x >> 7) }

  function SmallSigma1(x: Word): Word { Rotr(x, 19) ^ Rotr(x, 61) ^ (x >> 6) }

  /** The constants, four in a row. */
  function Row(i: nat): (k: seq<Word>)
    requires i < 20
    ensures |k| == 4
  {
    if i == 0 then [0x428A2F98D728AE22, 0x7137449123EF65CD, 0xB5C0FBCFEC4D3B2F, 0xE9B5DBA58189DBBC]
    else if i == 1 then [0x3956C25BF348B538, 0x59F111F1B605D019, 0x923F82A4AF194F9B, 0xAB1C5ED5DA6D8118]
    else if i == 2 then [0xD807AA98A3030242, 0x12835B0145706FBE, 0x243185BE4EE4B28C, 0x550C7DC3D5FFB4E2]
    else if i == 3 then [0x72BE5D74F27B896F, 0x80DEB1FE3B1696B1, 0x9BDC06A725C71235, 0xC19BF174CF692694]
    else if i == 4 then [0xE49B69C19EF14AD2, 0xEFBE4786384F25E3, 0x0FC19DC68B8CD5B5, 0x240CA1CC77AC9C65]
    else if i == 5 then [0x2DE92C6F592B0275, 0x4A7484AA6EA6E483, 0x5CB0A9DCBD41FBD4, 0x76F988DA831153B5]
    else if i == 6 then [0x983E5152EE66DFAB, 0xA831C66D2DB43210, 0xB00327C898FB213F, 0xBF597FC7BEEF0EE4]
    else if i == 7 then [0xC6E00BF33DA88FC2, 0xD5A79147930AA725, 0x06CA6351E003826F, 0x142929670A0E6E70]
    else if i == 8 then [0x27B70A8546D22FFC, 0x2E1B21385C26C926, 0x4D2C6DFC5AC42AED, 0x53380D139D95B3DF]
    else if i == 9 then [0x650A73548BAF63DE, 0x766A0ABB3C77B2A8, 0x81C2C92E47EDAEE6, 0x92722C851482353B]
    else if i == 10 then [0xA2BFE8A14CF10364, 0xA81A664BBC423001, 0xC24B8B70D0F89791, 0xC76C51A30654BE30]
    else if i == 11 then [0xD192E819D6EF5218, 0xD69906245565A910, 0xF40E35855771202A, 0x106AA07032BBD1B8]
    else if i == 12 then [0x19A4C116B8D2D0C8, 0x1E376C085141AB53, 0x2748774CDF8EEB99, 0x34B0BCB5E19B48A8]
    else if i == 13 then [0x391C0CB3C5C95A63, 0x4ED8AA4AE3418ACB, 0x5B9CCA4F7763E373, 0x682E6FF3D6B2B8A3]
    else if i == 14 then [0x748F82EE5DEFB2FC, 0x78A5636F43172F60, 0x84C87814A1F0AB72, 0x8CC702081A6439EC]
    else if i == 15 then [0x90BEFFFA23631E28, 0xA4506CEBDE82BDE9, 0xBEF9A3F7B2C67915, 0xC67178F2E372532B]
    else if i == 16 then [0xCA273ECEEA26619C, 0xD186B8C721C0C207, 0xEADA7DD6CDE0EB1E, 0xF57D4F7FEE6ED178]
    else if i == 17 then [0x06F067AA72176FBA, 0x0A637DC5A2C898A6, 0x113F9804BEF90DAE, 0x1B710B35131C471B]
    else if i == 18 then [0x28DB77F523047D84, 0x32CAAB7B40C72493, 0x3C9EBE0A15C9BEBC, 0x431D67C49C100D4C]
    else [0x4CC5D4BECB3E42B6, 0x597F299CFC657E2A, 0x5FCB6FAB3AD6FAEC, 0x6C44198C4A475817]
  }

  function Constant(t: nat): Word
    requires t < 80
  {
    Row(t / 4)[t % 4]
  }

  // ----- preprocessing, section 5 -----

  /** The eight bytes of a word, the most significant first. */
  function BigEndian(w: Word): (b: seq<Byte>)
    ensures |b| == 8
  {
    [((w >> 56) & 0xFF) as Byte, ((w >> 48) & 0xFF) as Byte, ((w >> 40) & 0xFF) as Byte, ((w >> 32) & 0xFF) as Byte,
     ((w >> 24) & 0xFF) as Byte, ((w >> 16) & 0xFF) as Byte, ((w >> 8) & 0xFF) as Byte, (w & 0xFF) as Byte]
  }

  function Joined(b0: Byte, b1: Byte, b2: Byte, b3: Byte, b4: Byte, b5: Byte, b6: Byte, b7: Byte): Word {
    (b0 as Word << 56) | (b1 as Word << 48) | (b2 as Word << 40) | (b3 as Word << 32) |
    (b4 as Word << 24) | (b5 as Word << 16) | (b6 as Word << 8) | (b7 as Word)
  }

  function WordOf(b: seq<Byte>): Word
    requires |b| == 8
  {
    Joined(b[0], b[1], b[2], b[3], b[4], b[5], b[6], b[7])
  }

  /** The 1 bit and as few 0 bits as leave room for the length in the last block. */
  function Filler(n: nat): (f: seq<Byte>)
    ensures (n + |f|) % 128 == 112 && 1 <= |f| <= 128
  {
    [0x80] + Zeros((239 - n % 128) % 128)
  }

  const TWO_128: nat := 0x1_0000_0000_0000_0000_0000_0000_0000_0000

  /** The word that denotes a number in binary. */
  function ToWord(n: nat): Word {
    if n == 0 then 0 else Twice(ToWord(n / 2), n % 2 == 1)
  }

  /** A message of `n` bytes has `8 * n` bits, written as a 128-bit number. */
  function LengthHigh(n: nat): Word { ToWord(8 * n / TWO_64 % TWO_64) }

  function LengthLow(n: nat): Word { ToWord(8 * n % TWO_64) }

  function Padded(message: seq<Byte>): seq<Byte> {
    var n := |message|;
    message + Filler(n) + BigEndian(LengthHigh(n)) + BigEndian(LengthLow(n))
  }

  const INITIAL_512: seq<Word> := [
    0x6A09E667F3BCC908, 0xBB67AE8584CAA73B, 0x3C6EF372FE94F82B, 0xA54FF53A5F1D36F1,
    0x510E527FADE682D1, 0x9B05688C2B3E6C1F, 0x1F83D9ABFB41BD6B, 0x5BE0CD19137E2179
  ]

  const INITIAL_384: seq<Word> := [
    0xCBBB9D5DC1059ED8, 0x629A292A367CD507, 0x9159015A3070DD17, 0x152FECD8F70E5939,
    0x67332667FFC00B31, 0x8EB44A8768581511, 0xDB0C2E0D64F98FA7, 0x47B5481DBEFA4FA4
  ]

  function Initial(is384: bool): (h: seq<Word>)
    ensures |h| == 8
  {
    if is384 then INITIAL_384 else INITIAL_512
  }

  // ----- computation, section 6.4.2 -----

  function Schedule(block: seq<Word>, t: nat): Word
    requires |block| == 16
  {
    if t < 16 then block[t]
    else
      Plus(Plus(Plus(SmallSigma1(Schedule(block, t - 2)), Schedule(block, t - 7)),
                SmallSigma0(Schedule(block, t - 15))), Schedule(block, t - 16))
  }

  function Round(r: Registers<Word>, k: Word, w: Word): Registers<Word> {
    var t1 := Plus(Plus(Plus(Plus(r.h, BigSigma1(r.e)), Ch(r.e, r.f, r.g)), k), w);
    var t2 := Plus(BigSigma0(r.a), Maj(r.a, r.b, r.c));
    Registers(Plus(t1, t2), r.a, r.b, r.c, Plus(r.d, t1), r.e, r.f, r.g)
  }

  /** The registers after the first `t` rounds. */
  function Rounds(h: seq<Word>, block: seq<Word>, t: nat): Registers<Word>
    requires |h| == 8 && |block| == 16 && t <= 80
  {
    if t == 0 then RegistersOf(h)
    else Round(Rounds(h, block, t - 1), Constant(t - 1), Schedule(block, t - 1))
  }

  function Added(h: seq<Word>, r: Registers<Word>): (s: seq<Word>)
    requires |h| == 8
    ensures |s| == 8
  {
    [Plus(h[0], r.a), Plus(h[1], r.b), Plus(h[2], r.c), Plus(h[3], r.d),
     Plus(h[4], r.e), Plus(h[5], r.f), Plus(h[6], r.g), Plus(h[7], r.h)]
  }

  /** The sixteen words of a block of bytes. */
  function Parsed(block: seq<Byte>): (w: seq<Word>)
    requires |block| == 128
    ensures |w| == 16
  {
    seq(16, i requires 0 <= i < 16 => WordOf(block[8 * i..8 * i + 8]))
  }

  function Compressed(h: seq<Word>, block: seq<Word>): (s: seq<Word>)
    requires |h| == 8 && |block| == 16
    ensures |s| == 8
  {
    Added(h, Rounds(h, block, 80))
  }

  /** The hash value after the whole blocks of `bytes`. */
  function Absorbed(h: seq<Word>, bytes: seq<Byte>): (s: seq<Word>)
    requires |h| == 8
    ensures |s| == 8
    decreases |bytes|
  {
    if |bytes| < 128 then h else Absorbed(Compressed(h, Parsed(bytes[..128])), bytes[128..])
  }

  function Written(h: seq<Word>): (b: seq<Byte>)
    ensures |b| == 8 * |h|
  {
    if h == [] then [] else Written(h[..|h| - 1]) + BigEndian(h[|h| - 1])
  }

  /** The digest of a message: 64 bytes, or the first 48 for SHA-384. */
  function Digest(is384: bool, message: seq<Byte>): (d: seq<Byte>)
    ensures |d| == if is384 then 48 else 64
  {
    Written(Absorbed(Initial(is384), Padded(message))[..if is384 then 6 else 8])
  }
}
