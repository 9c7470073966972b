// What the padding of FIPS 180-4, section 5.1.2, says when its bytes are read as numbers.

module Sha512Padding {
  import opened Arithmetic
  import opened Buffer
  import opened Digits
  import opened Sha512Standard
  import opened Words64

  // ----- words as numbers -----

  lemma ZeroWord()
    ensures NumberOf(ToWord(0)) == 0
  {
  }

  /** The word of a number denotes that number. */
  lemma {:induction false} ToWordDenotes(n: nat)
    requires n < TWO_64
    ensures NumberOf(ToWord(n)) == n
  {
    hide NumberOf, Twice;
    if n == 0 {
      ZeroWord();
    } else {
      ToWordDenotes(n / 2);
      TwiceDenotes(ToWord(n / 2), n % 2 == 1);
    }
  }

  lemma JoinedDenotes(b0: bv8, b1: bv8, b2: bv8, b3: bv8, b4: bv8, b5: bv8, b6: bv8, b7: bv8)
    ensures NumberOf(Joined(b0, b1, b2, b3, b4, b5, b6, b7)) == Longer(Longer(0, b0, b1, b2, b3), b4, b5, b6, b7)
  {
  }

  /** Eight bytes are read as the word that they denote, the highest byte first. */
  lemma WordDenotes(b: seq<Byte>)
    requires |b| == 8
    ensures NumberOf(WordOf(b)) == Big(b)
  {
    hide Big, Longer, NumberOf, Joined;
    JoinedDenotes(b[0], b[1], b[2], b[3], b[4], b[5], b[6], b[7]);
    BigOfEight(b);
  }

  lemma BytesJoin(w: bv64, b0: bv8, b1: bv8, b2: bv8, b3: bv8, b4: bv8, b5: bv8, b6: bv8, b7: bv8)
    requires b0 == ((w >> 56) & 0xFF) as bv8 && b1 == ((w >> 48) & 0xFF) as bv8
    requires b2 == ((w >> 40) & 0xFF) as bv8 && b3 == ((w >> 32) & 0xFF) as bv8
    requires b4 == ((w >> 24) & 0xFF) as bv8 && b5 == ((w >> 16) & 0xFF) as bv8
    requires b6 == ((w >> 8) & 0xFF) as bv8 && b7 == (w & 0xFF) as bv8
    ensures w == (b0 as bv64 << 56) | (b1 as bv64 << 48) | (b2 as bv64 << 40) | (b3 as bv64 << 32) |
                 (b4 as bv64 << 24) | (b5 as bv64 << 16) | (b6 as bv64 << 8) | (b7 as bv64)
  {
  }

  lemma BytesAgain(w: Word)
    ensures WordOf(BigEndian(w)) == w
  {
    var b := BigEndian(w);
    BytesJoin(w, b[0], b[1], b[2], b[3], b[4], b[5], b[6], b[7]);
  }

  /** A word is written as its digits, the highest byte first. */
  lemma BytesDenote(w: Word)
    ensures Big(BigEndian(w)) == NumberOf(w)
  {
    hide BigEndian, WordOf, NumberOf;
    WordDenotes(BigEndian(w));
    BytesAgain(w);
  }

  // ----- the padding -----

  lemma LengthSplits(n: nat)
    ensures (8 * n / TWO_64 % TWO_64) * TWO_64 + 8 * n % TWO_64 == 8 * n % TWO_128
  {
    var q, low := 8 * n / TWO_64, 8 * n % TWO_64;
    var p, high := q / TWO_64, q % TWO_64;
    assert 8 * n == p * TWO_128 + (high * TWO_64 + low);
    Remainder(8 * n, p, high * TWO_64 + low, TWO_128);
  }

  /** Sixteen bytes give the length in bits, modulo 2 to the 128. */
  lemma LengthDenotes(n: nat)
    ensures Big(BigEndian(LengthHigh(n)) + BigEndian(LengthLow(n))) == 8 * n % TWO_128
  {
    hide BigEndian, Big, ToWord, NumberOf;
    assert Power256(8) == TWO_64;
    hide Power256;
    BytesDenote(LengthHigh(n));
    BytesDenote(LengthLow(n));
    ToWordDenotes(8 * n / TWO_64 % TWO_64);
    ToWordDenotes(8 * n % TWO_64);
    LengthSplits(n);
    BigConcat(BigEndian(LengthHigh(n)), BigEndian(LengthLow(n)));
  }

  /** A padded message is the message, a one bit, zeros up to the last sixteen bytes of a block, no block more than
      needed, and the length in bits as a number of sixteen bytes. */
  lemma PaddedMeans(m: seq<Byte>)
    ensures var p := Padded(m);
      && |p| % 128 == 0 && |m| + 17 <= |p| < |m| + 17 + 128
      && p[..|m|] == m && p[|m|] == 0x80 && (forall i :: |m| < i < |p| - 16 ==> p[i] == 0)
      && Big(p[|p| - 16..]) == 8 * |m| % TWO_128
  {
    var f, l := Filler(|m|), BigEndian(LengthHigh(|m|)) + BigEndian(LengthLow(|m|));
    LengthDenotes(|m|);
    FillerMeans(|m|);
    PaddedParts(m, f, l);
    hide LengthHigh, LengthLow, BigEndian, Big, Filler, Padded;
  }

  lemma FillerMeans(n: nat)
    ensures var f := Filler(n); f[0] == 0x80 && forall i :: 0 < i < |f| ==> f[i] == 0
  {
    hide Zeros;
  }

  lemma PaddedParts(m: seq<Byte>, f: seq<Byte>, l: seq<Byte>)
    requires f == Filler(|m|) && l == BigEndian(LengthHigh(|m|)) + BigEndian(LengthLow(|m|))
    ensures var p := Padded(m);
      && |p| % 128 == 0 && |m| + 17 <= |p| < |m| + 17 + 128 && p[..|m|] == m && p[|p| - 16..] == l
      && forall i :: |m| <= i < |p| - 16 ==> p[i] == f[i - |m|]
  {
    hide LengthHigh, LengthLow, BigEndian, Filler;
    assert Padded(m) == m + f + l;
  }
}
