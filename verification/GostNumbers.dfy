// What the bytes of plibsys/src/pcryptohash-gost3411.c denote as numbers in base 256, the lowest byte first as in
// section 4 of RFC 5831 on a little-endian host.

module GostNumbers {
  import opened Arithmetic
  import opened Digits
  import opened GostSum
  import opened GostStep
  import opened Words32

  type Byte = bv8

  // ----- bytes, words and limbs -----

  function WordOf(a: Byte, b: Byte, c: Byte, d: Byte): Word {
    (a as Word) | ((b as Word) << 8) | ((c as Word) << 16) | ((d as Word) << 24)
  }

  function BytesOf(w: Word): (b: seq<Byte>)
    ensures |b| == 4
  {
    [(w & 0xFF) as Byte, ((w >> 8) & 0xFF) as Byte, ((w >> 16) & 0xFF) as Byte, ((w >> 24) & 0xFF) as Byte]
  }

  /** Bytes as the host reads them as words. */
  function Read(b: seq<Byte>): (w: seq<Word>)
    requires |b| % 4 == 0
    ensures 4 * |w| == |b|
  {
    if b == [] then [] else [WordOf(b[0], b[1], b[2], b[3])] + Read(b[4..])
  }

  /** Words as the host shows their bytes. */
  function Shown(w: seq<Word>): (b: seq<Byte>)
    ensures |b| == 4 * |w|
  {
    if w == [] then [] else BytesOf(w[0]) + Shown(w[1..])
  }

  function WordsOf(b: seq<Byte>): Eight
    requires |b| == 32
  {
    EightOf(Read(b))
  }

  function AllBytes(x: Eight): (b: seq<Byte>)
    ensures |b| == 32
  {
    Shown(x.Words())
  }

  function LimbOf(w: Word): Limb { w as int as Limb }

  function WordOfLimb(x: Limb): Word { (x as int) as Word }

  function Limbs(w: seq<Word>): (x: seq<Limb>)
    ensures |x| == |w|
  {
    if w == [] then [] else [LimbOf(w[0])] + Limbs(w[1..])
  }

  function Wide(x: seq<Limb>): (w: seq<Word>)
    ensures |w| == |x|
  {
    if x == [] then [] else [WordOfLimb(x[0])] + Wide(x[1..])
  }

  function LimbsOf(x: Eight): (b: seq<Limb>)
    ensures |b| == 8
  {
    Limbs(x.Words())
  }

  function OfLimbs(b: seq<Limb>): Eight
    requires |b| == 8
  {
    EightOf(Wide(b))
  }

  /** The limbs of a number, the lowest first. */
  function ToLimbs(n: nat, k: nat): (x: seq<Limb>)
    ensures |x| == k
  {
    if k == 0 then [] else [(n % W) as Limb] + ToLimbs(n / W, k - 1)
  }

  lemma {:induction false} LimbsDecided(x: seq<Limb>)
    ensures ToLimbs(Value(x), |x|) == x
  {
    if x != [] {
      Remainder(Value(x), Value(x[1..]), x[0] as nat, W);
      LimbsDecided(x[1..]);
    }
  }

  /** The number that a block of bytes denotes. */
  function Number(b: seq<Byte>): nat
    requires |b| == 32
  {
    Value(LimbsOf(WordsOf(b)))
  }

  /** The 256-bit number of bits of `n` bytes. */
  function LengthBlock(n: nat): Eight { OfLimbs(ToLimbs(8 * n % Power(8), 8)) }

  // ----- limbs as numbers -----

  lemma WordOfNumber(n: nat, x: bv32)
    requires n < TWO_32 && NumberOf(x) == n
    ensures n as bv32 == x
  {
  }

  /** A limb as a word and as a limb again. */
  lemma LimbAgain(x: Limb)
    ensures LimbOf(WordOfLimb(x)) == x
  {
    var w := WordFor(x as nat);
    WordOfNumber(x as nat, w);
    LimbFor(w, x);
  }

  lemma LimbFor(w: Word, x: Limb)
    requires NumberOf(w) == x as nat
    ensures LimbOf(w) == x
  {
  }

  lemma {:induction false} LimbsAgain(x: seq<Limb>)
    ensures Limbs(Wide(x)) == x
  {
    if x != [] {
      hide LimbOf, WordOfLimb;
      LimbAgain(x[0]);
      LimbsAgain(x[1..]);
    }
  }

  // ----- bytes as numbers -----

  lemma JoinedDenotes(a: bv8, b: bv8, c: bv8, d: bv8)
    ensures LimbOf(WordOf(a, b, c, d)) as nat ==
      Digit(a) + 256 * (Digit(b) + 256 * (Digit(c) + 256 * Digit(d)))
  {
  }

  lemma BytesJoin(w: bv32)
    ensures WordOf((w & 0xFF) as bv8, ((w >> 8) & 0xFF) as bv8, ((w >> 16) & 0xFF) as bv8, ((w >> 24) & 0xFF) as bv8)
            == w
  {
  }

  /** A word is written as its four digits. */
  lemma BytesDenote(w: Word)
    ensures Little(BytesOf(w)) == LimbOf(w) as nat
  {
    var b := BytesOf(w);
    BytesJoin(w);
    LittleOfFour(b);
    hide Little, Digit, LimbOf, WordOf;
    JoinedDenotes(b[0], b[1], b[2], b[3]);
  }

  lemma JoinedBytes(a: bv8, b: bv8, c: bv8, d: bv8)
    ensures BytesOf(WordOf(a, b, c, d)) == [a, b, c, d]
  {
    JoinedParts(a, b, c, d);
  }

  lemma JoinedParts(a: bv8, b: bv8, c: bv8, d: bv8)
    ensures var w := WordOf(a, b, c, d);
      && (w & 0xFF) as bv8 == a && ((w >> 8) & 0xFF) as bv8 == b
      && ((w >> 16) & 0xFF) as bv8 == c && ((w >> 24) & 0xFF) as bv8 == d
  {
  }

  /** Words show the digits of the number that they make up as limbs. */
  lemma {:induction false} ShownDenote(w: seq<Word>)
    ensures Little(Shown(w)) == Value(Limbs(w))
  {
    if w != [] {
      hide BytesOf, Little, LimbOf;
      ShownDenote(w[1..]);
      BytesDenote(w[0]);
      LittleConcat(BytesOf(w[0]), Shown(w[1..]));
      FourDigits();
    }
  }

  lemma FourDigits()
    ensures Power256(4) == W
  {
  }

  lemma {:induction false} ReadShows(b: seq<Byte>)
    requires |b| % 4 == 0
    ensures Shown(Read(b)) == b
  {
    if b != [] {
      hide BytesOf, WordOf;
      JoinedBytes(b[0], b[1], b[2], b[3]);
      ReadShows(b[4..]);
    }
  }

  /** A block of the message is the number whose 32 digits are its bytes. */
  lemma NumberDenotes(b: seq<Byte>)
    requires |b| == 32
    ensures Number(b) == Little(b)
  {
    hide Read, Shown, Limbs, Value, Little;
    ReadShows(b);
    ShownDenote(Read(b));
  }

  /** Limbs hashed as a block are hashed as the number that they denote. */
  lemma LimbsDenote(b: seq<Limb>)
    requires |b| == 8
    ensures Little(AllBytes(OfLimbs(b))) == Value(b)
  {
    hide Shown, Wide, Limbs, Value, Little;
    LimbsAgain(b);
    ShownDenote(Wide(b));
  }

  lemma {:induction false} ToLimbsDenote(n: nat, k: nat)
    requires n < Power(k)
    ensures Value(ToLimbs(n, k)) == n
  {
    if k > 0 {
      Below(n, W, Power(k - 1));
      ToLimbsDenote(n / W, k - 1);
    }
  }

  lemma Below(n: nat, w: nat, p: nat)
    requires 0 < w && n < w * p
    ensures n / w < p && n == w * (n / w) + n % w
  {
  }

  /** The block of the length is the number of bits, modulo 2 to the 256. */
  lemma LengthDenotes(n: nat)
    ensures Little(AllBytes(LengthBlock(n))) == 8 * n % Power(8)
  {
    PowerPositive(8);
    hide AllBytes, OfLimbs, ToLimbs, Little, Value, Power;
    ToLimbsDenote(8 * n % Power(8), 8);
    LimbsDenote(ToLimbs(8 * n % Power(8), 8));
  }
}
