// The output mixing of plibsys/src/pcryptohash-gost3411.c: three blocks of XORs stand for 12, 1 and 61 steps of the
// shift register of RFC 5831, section 5.3.

module GostMixing {
  type Half = bv16

  type Word = bv32

  // ----- the shift register of the standard -----

  function Xor(a: Half, b: Half): Half { a ^ b }

  /** PSI: sixteen half-words move down by one and their sum over six taps comes in at the top. */
  function Psi(y: seq<Half>): (z: seq<Half>)
    requires |y| == 16
    ensures |z| == 16
  {
    y[1..] + [Xor(Xor(Xor(Xor(Xor(y[0], y[1]), y[2]), y[3]), y[12]), y[15])]
  }

  function PsiTimes(k: nat, y: seq<Half>): (z: seq<Half>)
    requires |y| == 16
    ensures |z| == 16
  {
    if k == 0 then y else Psi(PsiTimes(k - 1, y))
  }

  function Plus(a: seq<Half>, b: seq<Half>): (c: seq<Half>)
    requires |a| == |b|
    ensures |c| == |a|
  {
    seq(|a|, i requires 0 <= i < |a| => Xor(a[i], b[i]))
  }

  /** PSI^61 (H xor PSI (M xor PSI^12 (S))). */
  function Mixed(h: seq<Half>, m: seq<Half>, s: seq<Half>): (r: seq<Half>)
    requires |h| == 16 && |m| == 16 && |s| == 16
    ensures |r| == 16
  {
    PsiTimes(61, Plus(h, PsiTimes(1, Plus(m, PsiTimes(12, s)))))
  }

  // ----- the blocks of XORs of the source -----

  function Lo(x: Word): Half { (x & 0xFFFF) as Half }

  function Hi(x: Word): Half { (x >> 16) as Half }

  function Halves(v: seq<Word>): (y: seq<Half>)
    requires |v| == 8
    ensures |y| == 16
  {
    [Lo(v[0]), Hi(v[0]), Lo(v[1]), Hi(v[1]), Lo(v[2]), Hi(v[2]), Lo(v[3]), Hi(v[3]),
     Lo(v[4]), Hi(v[4]), Lo(v[5]), Hi(v[5]), Lo(v[6]), Hi(v[6]), Lo(v[7]), Hi(v[7])]
  }

  /** The eight words that a block takes in. */
  datatype Index = X0 | X1 | X2 | X3 | X4 | X5 | X6 | X7
  {
    function Number(): (n: nat)
      ensures n < 8
    {
      match this
      case X0 => 0 case X1 => 1 case X2 => 2 case X3 => 3 case X4 => 4 case X5 => 5 case X6 => 6 case X7 => 7
    }
  }

  /** A word of a block is an XOR of such terms over the words that the block takes in. */
  datatype Term = LowHalf(i: Index) | HighHalf(i: Index) | Shl(i: Index) | Shr(i: Index) | Whole(i: Index) | Nothing

  function KeepLow(x: Word): Word { x & 0x0000FFFF }

  function KeepHigh(x: Word): Word { x & 0xFFFF0000 }

  function Up(x: Word): Word { x << 16 }

  function Down(x: Word): Word { x >> 16 }

  function Value(t: Term, v: seq<Word>): Word
    requires |v| == 8
  {
    match t
    case LowHalf(i) => KeepLow(v[i.Number()])
    case HighHalf(i) => KeepHigh(v[i.Number()])
    case Shl(i) => Up(v[i.Number()])
    case Shr(i) => Down(v[i.Number()])
    case Whole(i) => v[i.Number()]
    case Nothing => 0
  }

  /** The terms of one word, three to a line as the source sets them. */
  datatype Row = End | Xor3(a: Term, b: Term, c: Term, rest: Row)

  function Add(a: Word, b: Word): Word { a ^ b }

  function Add3(s: Word, a: Word, b: Word, c: Word): Word { Add(Add(Add(s, a), b), c) }

  function RowValue(start: Word, row: Row, v: seq<Word>): Word
    requires |v| == 8
    decreases row
  {
    match row
    case End => start
    case Xor3(a, b, c, rest) => RowValue(Add3(start, Value(a, v), Value(b, v), Value(c, v)), rest, v)
  }

  /** The words of the first block, after the word of M that each starts with. */
  function Twelve(i: nat): Row
    requires i < 8
  {
    if i == 0 then Twelve0() else if i == 1 then Twelve1() else if i == 2 then Twelve2()
    else if i == 3 then Twelve3() else if i == 4 then Twelve4() else if i == 5 then Twelve5()
    else if i == 6 then Twelve6() else Twelve7()
  }

  function Twelve0(): Row {
    Xor3(Whole(X6), Nothing, Nothing, End)
  }

  function Twelve1(): Row {
    Xor3(Whole(X7), Nothing, Nothing, End)
  }

  function Twelve2(): Row {
    Xor3(LowHalf(X0), Shr(X0), Shl(X0), Xor3(LowHalf(X1), Shr(X1), Shl(X2), Xor3(HighHalf(X7), Shl(X6), Shr(X7),
    Xor3(Whole(X6), Nothing, Nothing, End))))
  }

  function Twelve3(): Row {
    Xor3(LowHalf(X0), Shl(X0), Shl(X2), Xor3(LowHalf(X1), Shl(X1), Shr(X1), Xor3(LowHalf(X7), Shr(X2), Shl(X3),
    Xor3(Shl(X6), Shr(X6), Shl(X7), Xor3(Shr(X7), Whole(X6), Nothing, End)))))
  }

  function Twelve4(): Row {
    Xor3(HighHalf(X0), Shl(X0), Shr(X0), Xor3(HighHalf(X1), Shr(X1), Shl(X2), Xor3(LowHalf(X7), Shl(X3), Shr(X3),
    Xor3(Shl(X4), Shl(X6), Shr(X6), Xor3(Shr(X2), Shl(X7), Shr(X7), End)))))
  }

  function Twelve5(): Row {
    Xor3(HighHalf(X0), Shr(X0), Shl(X0), Xor3(LowHalf(X1), Shr(X7), Shr(X2), Xor3(HighHalf(X7), Shr(X3), Shl(X4),
    Xor3(Shr(X4), Shl(X5), Shl(X6), Xor3(Shr(X6), Shl(X3), Shl(X7), Xor3(Whole(X2), Nothing, Nothing, End))))))
  }

  function Twelve6(): Row {
    Xor3(Shr(X4), Shr(X1), Shl(X2), Xor3(Shl(X7), Shr(X3), Shl(X4), Xor3(Shl(X5), Shr(X5), Shl(X6),
    Xor3(Shr(X6), Whole(X6), Whole(X0), Xor3(Whole(X3), Nothing, Nothing, End)))))
  }

  function Twelve7(): Row {
    Xor3(HighHalf(X0), Shl(X0), Shl(X1), Xor3(LowHalf(X1), Shr(X2), Shl(X3), Xor3(LowHalf(X7), Shr(X4), Shl(X5),
    Xor3(Shr(X5), Shr(X6), Shl(X7), Xor3(Shr(X7), Whole(X4), Nothing, End)))))
  }

  /** The words of the second block, after the word of H. */
  function One(i: nat): Row
    requires i < 8
  {
    if i == 0 then One0() else if i == 1 then One1() else if i == 2 then One2() else if i == 3 then One3() else
    if i == 4 then One4() else if i == 5 then One5() else if i == 6 then One6() else One7()
  }

  function One0(): Row {
    Xor3(Shl(X1), Shr(X0), Nothing, End)
  }

  function One1(): Row {
    Xor3(Shl(X2), Shr(X1), Nothing, End)
  }

  function One2(): Row {
    Xor3(Shl(X3), Shr(X2), Nothing, End)
  }

  function One3(): Row {
    Xor3(Shl(X4), Shr(X3), Nothing, End)
  }

  function One4(): Row {
    Xor3(Shl(X5), Shr(X4), Nothing, End)
  }

  function One5(): Row {
    Xor3(Shl(X6), Shr(X5), Nothing, End)
  }

  function One6(): Row {
    Xor3(Shl(X7), Shr(X6), Nothing, End)
  }

  function One7(): Row {
    Xor3(Shr(X7), Shl(X0), HighHalf(X1), Xor3(Shl(X1), HighHalf(X7), Shl(X6),
    Xor3(HighHalf(X0), Nothing, Nothing, End)))
  }

  /** The words of the last block. */
  function SixtyOne(i: nat): Row
    requires i < 8
  {
    if i == 0 then SixtyOne0() else if i == 1 then SixtyOne1() else if i == 2 then SixtyOne2()
    else if i == 3 then SixtyOne3() else if i == 4 then SixtyOne4() else if i == 5 then SixtyOne5()
    else if i == 6 then SixtyOne6() else SixtyOne7()
  }

  function SixtyOne0(): Row {
    Xor3(HighHalf(X0), Shl(X0), Shr(X0), Xor3(HighHalf(X1), Shr(X1), Shl(X2), Xor3(LowHalf(X7), Shr(X3), Shl(X4),
    Xor3(Shr(X5), Shr(X6), Shl(X7), Xor3(Shr(X7), Whole(X5), Nothing, End)))))
  }

  function SixtyOne1(): Row {
    Xor3(HighHalf(X0), Shl(X0), Shr(X0), Xor3(LowHalf(X1), Shr(X2), Shl(X3), Xor3(HighHalf(X7), Shr(X4), Shl(X5),
    Xor3(Shl(X6), Shr(X7), Whole(X6), Xor3(Whole(X2), Nothing, Nothing, End)))))
  }

  function SixtyOne2(): Row {
    Xor3(LowHalf(X0), Shl(X0), Shl(X1), Xor3(LowHalf(X7), Shr(X1), Shl(X2), Xor3(HighHalf(X1), Shr(X3), Shl(X4),
    Xor3(Shr(X5), Shr(X6), Shl(X7), Xor3(Shr(X7), Whole(X3), Whole(X6), End)))))
  }

  function SixtyOne3(): Row {
    Xor3(HighHalf(X0), Shl(X0), Shr(X0), Xor3(HighHalf(X1), Shr(X1), Shl(X2), Xor3(LowHalf(X7), Shr(X2), Shl(X3),
    Xor3(Shr(X4), Shl(X5), Shl(X6), Xor3(Shr(X7), Whole(X2), Whole(X4), End)))))
  }

  function SixtyOne4(): Row {
    Xor3(Shr(X0), Shl(X1), Shr(X2), Xor3(Shl(X3), Shr(X3), Shl(X4), Xor3(Shr(X5), Shl(X6), Shr(X6),
    Xor3(Shl(X7), Whole(X1), Whole(X2), Xor3(Whole(X3), Whole(X5), Nothing, End)))))
  }

  function SixtyOne5(): Row {
    Xor3(HighHalf(X0), Shl(X0), Shl(X1), Xor3(HighHalf(X1), Shr(X1), Shl(X2), Xor3(HighHalf(X7), Shr(X3), Shl(X4),
    Xor3(Shr(X4), Shl(X5), Shl(X6), Xor3(Shr(X6), Shl(X7), Shr(X7), Xor3(Whole(X2), Whole(X3), Whole(X4),
    Xor3(Whole(X6), Nothing, Nothing, End)))))))
  }

  function SixtyOne6(): Row {
    Xor3(Shr(X2), Shl(X3), Shr(X4), Xor3(Shl(X5), Shr(X5), Shl(X6), Xor3(Shr(X6), Shl(X7), Whole(X7),
    Xor3(Whole(X0), Whole(X2), Whole(X3), Xor3(Whole(X4), Whole(X5), Whole(X6), End)))))
  }

  function SixtyOne7(): Row {
    Xor3(Shr(X0), Shl(X1), Shr(X1), Xor3(Shl(X2), Shr(X3), Shl(X4), Xor3(Shr(X5), Shl(X6), Shr(X6),
    Xor3(Shl(X7), Whole(X7), Whole(X0), Xor3(Whole(X3), Whole(X4), Whole(X5), End)))))
  }

  // ----- sums of half-words -----

  function Pick(m: Half, w: Half): Half { if m & 1 == 1 then w else 0 }

  /** The XOR of the half-words that `m` selects. */
  function Selected(m: Half, y: seq<Half>): Half {
    if y == [] then 0 else Xor(Pick(m, y[0]), Selected(m >> 1, y[1..]))
  }

  lemma XorSwaps(a: Half, b: Half)
    ensures Xor(a, b) == Xor(b, a)
  {
  }

  lemma XorRegroups(a: Half, b: Half, c: Half)
    ensures Xor(Xor(a, b), c) == Xor(a, Xor(b, c))
  {
  }

  lemma Regrouped(p: Half, q: Half, e: Half, f: Half)
    ensures Xor(Xor(p, q), Xor(e, f)) == Xor(Xor(p, e), Xor(q, f))
  {
    hide Xor;
    XorRegroups(p, q, Xor(e, f));
    XorRegroups(q, e, f);
    XorSwaps(q, e);
    XorRegroups(e, q, f);
    XorRegroups(p, e, Xor(q, f));
  }

  lemma XorZero(w: Half)
    ensures Xor(w, w) == 0 && Xor(w, 0) == w && Xor(0, w) == w
  {
  }

  lemma XorLowBit(m: Half, n: Half)
    ensures (Xor(m, n) & 1 == 1) == ((m & 1 == 1) != (n & 1 == 1))
  {
  }

  lemma ShiftedBits(m: bv16, n: bv16)
    ensures (m ^ n) >> 1 == (m >> 1) ^ (n >> 1)
  {
  }

  lemma XorShifted(m: Half, n: Half)
    ensures Xor(m, n) >> 1 == Xor(m >> 1, n >> 1)
  {
    ShiftedBits(m, n);
  }

  lemma PickXor(m: Half, n: Half, w: Half)
    ensures Pick(Xor(m, n), w) == Xor(Pick(m, w), Pick(n, w))
  {
    hide Xor;
    XorLowBit(m, n);
    XorZero(w);
    XorZero(0);
  }

  lemma {:induction false} SelectedXor(m: Half, n: Half, y: seq<Half>)
    ensures Selected(Xor(m, n), y) == Xor(Selected(m, y), Selected(n, y))
  {
    hide Xor, Pick;
    if y == [] {
      XorZero(0);
    } else {
      XorShifted(m, n);
      PickXor(m, n, y[0]);
      SelectedXor(m >> 1, n >> 1, y[1..]);
      Regrouped(Pick(m, y[0]), Pick(n, y[0]), Selected(m >> 1, y[1..]), Selected(n >> 1, y[1..]));
    }
  }

  // ----- the output of the register -----

  /** Half-word `n` that the register passes on, from its start `y`. */
  function Stream(y: seq<Half>, n: nat): Half
    requires |y| == 16
  {
    if n < 16 then y[n]
    else
      Xor(Xor(Xor(Xor(Xor(Stream(y, n - 16), Stream(y, n - 15)), Stream(y, n - 14)), Stream(y, n - 13)),
              Stream(y, n - 4)), Stream(y, n - 1))
  }

  lemma {:induction false} PsiShowsStream(k: nat, y: seq<Half>)
    requires |y| == 16
    ensures forall i :: 0 <= i < 16 ==> PsiTimes(k, y)[i] == Stream(y, k + i)
  {
    hide Xor;
    if k > 0 {
      PsiShowsStream(k - 1, y);
    }
  }

  /** Bit `i` of mask `n` says whether half-word `n` of the stream takes in half-word `i` of the start. */
  function Mask(n: nat): Half
    requires n < 77
  {
    if n == 0 then 0x0001 else if n == 1 then 0x0002 else if n == 2 then 0x0004 else if n == 3 then 0x0008 else
    if n == 4 then 0x0010 else if n == 5 then 0x0020 else if n == 6 then 0x0040 else if n == 7 then 0x0080 else
    if n == 8 then 0x0100 else if n == 9 then 0x0200 else if n == 10 then 0x0400 else
    if n == 11 then 0x0800 else if n == 12 then 0x1000 else if n == 13 then 0x2000 else
    if n == 14 then 0x4000 else if n == 15 then 0x8000 else if n == 16 then 0x900F else
    if n == 17 then 0xB011 else if n == 18 then 0xF02D else if n == 19 then 0x7055 else
    if n == 20 then 0xE0AA else if n == 21 then 0x515B else if n == 22 then 0xA2B6 else
    if n == 23 then 0xD563 else if n == 24 then 0x3AC9 else if n == 25 then 0x7592 else
    if n == 26 then 0xEB24 else if n == 27 then 0x4647 else if n == 28 then 0x8C8E else
    if n == 29 then 0x8913 else if n == 30 then 0x8229 else if n == 31 then 0x945D else
    if n == 32 then 0xB8B5 else if n == 33 then 0xE165 else if n == 34 then 0x52C5 else
    if n == 35 then 0xA58A else if n == 36 then 0xDB1B else if n == 37 then 0x2639 else
    if n == 38 then 0x4C72 else if n == 39 then 0x98E4 else if n == 40 then 0xA1C7 else
    if n == 41 then 0xD381 else if n == 42 then 0x370D else if n == 43 then 0x6E1A else
    if n == 44 then 0xDC34 else if n == 45 then 0x2867 else if n == 46 then 0x50CE else
    if n == 47 then 0xA19C else if n == 48 then 0xD337 else if n == 49 then 0x3661 else
    if n == 50 then 0x6CC2 else if n == 51 then 0xD984 else if n == 52 then 0x2307 else
    if n == 53 then 0x460E else if n == 54 then 0x8C1C else if n == 55 then 0x8837 else
    if n == 56 then 0x8061 else if n == 57 then 0x90CD else if n == 58 then 0xB195 else
    if n == 59 then 0xF325 else if n == 60 then 0x7645 else if n == 61 then 0xEC8A else
    if n == 62 then 0x491B else if n == 63 then 0x9236 else if n == 64 then 0xB463 else
    if n == 65 then 0xF8C9 else if n == 66 then 0x619D else if n == 67 then 0xC33A else
    if n == 68 then 0x167B else if n == 69 then 0x2CF6 else if n == 70 then 0x59EC else
    if n == 71 then 0xB3D8 else if n == 72 then 0xF7BF else if n == 73 then 0x7F71 else
    if n == 74 then 0xFEE2 else if n == 75 then 0x6DCB else 0xDB96
  }

  /** Half-word `n` of the stream is the sum that its mask selects. */
  predicate Known(y: seq<Half>, n: nat)
    requires |y| == 16 && n < 77
  {
    Stream(y, n) == Selected(Mask(n), y)
  }

  lemma Six(y: seq<Half>, a: Half, b: Half, c: Half, d: Half, e: Half, f: Half)
    ensures Selected(Xor(Xor(Xor(Xor(Xor(a, b), c), d), e), f), y) ==
      Xor(Xor(Xor(Xor(Xor(Selected(a, y), Selected(b, y)), Selected(c, y)), Selected(d, y)), Selected(e, y)),
          Selected(f, y))
  {
    hide Xor;
    SelectedXor(a, b, y);
    SelectedXor(Xor(a, b), c, y);
    SelectedXor(Xor(Xor(a, b), c), d, y);
    SelectedXor(Xor(Xor(Xor(a, b), c), d), e, y);
    SelectedXor(Xor(Xor(Xor(Xor(a, b), c), d), e), f, y);
  }

  lemma TapsKnown(y: seq<Half>, n: nat)
    requires |y| == 16 && 16 <= n < 77
    requires Known(y, n - 16) && Known(y, n - 15) && Known(y, n - 14) && Known(y, n - 13)
    requires Known(y, n - 4) && Known(y, n - 1)
    requires Mask(n) ==
      Mask(n - 16) ^ Mask(n - 15) ^ Mask(n - 14) ^ Mask(n - 13) ^ Mask(n - 4) ^ Mask(n - 1)
    ensures Known(y, n)
  {
    var a, b, c, d, e, f := Mask(n - 16), Mask(n - 15), Mask(n - 14), Mask(n - 13), Mask(n - 4), Mask(n - 1);
    assert Mask(n) == Xor(Xor(Xor(Xor(Xor(a, b), c), d), e), f);
    hide Xor, Mask;
    Six(y, a, b, c, d, e, f);
  }

  lemma SelectedZero(y: seq<Half>)
    ensures Selected(0, y) == 0
  {
    if y != [] {
      SelectedZero(y[1..]);
    }
  }

  lemma UnitShifts(n: nat)
    requires 0 < n < 16
    ensures Mask(n) >> 1 == Mask(n - 1) && Mask(n) & 1 == 0
  {
  }

  lemma {:induction false} UnitSelects(y: seq<Half>, n: nat)
    requires n < |y| <= 16
    ensures Selected(Mask(n), y) == y[n]
  {
    if n == 0 {
      SelectedZero(y[1..]);
      XorZero(y[0]);
    } else {
      UnitShifts(n);
      UnitSelects(y[1..], n - 1);
      XorZero(y[n]);
    }
  }

  lemma KnownTo35(y: seq<Half>)
    requires |y| == 16
    requires forall n :: 0 <= n < 16 ==> Known(y, n)
    ensures forall n :: 16 <= n < 36 ==> Known(y, n)
  {
    hide Known;
    TapsKnown(y, 16); TapsKnown(y, 17); TapsKnown(y, 18); TapsKnown(y, 19); TapsKnown(y, 20);
    TapsKnown(y, 21); TapsKnown(y, 22); TapsKnown(y, 23); TapsKnown(y, 24); TapsKnown(y, 25);
    TapsKnown(y, 26); TapsKnown(y, 27); TapsKnown(y, 28); TapsKnown(y, 29); TapsKnown(y, 30);
    TapsKnown(y, 31); TapsKnown(y, 32); TapsKnown(y, 33); TapsKnown(y, 34); TapsKnown(y, 35);
  }

  lemma KnownTo55(y: seq<Half>)
    requires |y| == 16
    requires forall n :: 20 <= n < 36 ==> Known(y, n)
    ensures forall n :: 36 <= n < 56 ==> Known(y, n)
  {
    hide Known;
    TapsKnown(y, 36); TapsKnown(y, 37); TapsKnown(y, 38); TapsKnown(y, 39); TapsKnown(y, 40);
    TapsKnown(y, 41); TapsKnown(y, 42); TapsKnown(y, 43); TapsKnown(y, 44); TapsKnown(y, 45);
    TapsKnown(y, 46); TapsKnown(y, 47); TapsKnown(y, 48); TapsKnown(y, 49); TapsKnown(y, 50);
    TapsKnown(y, 51); TapsKnown(y, 52); TapsKnown(y, 53); TapsKnown(y, 54); TapsKnown(y, 55);
  }

  lemma KnownTo76(y: seq<Half>)
    requires |y| == 16
    requires forall n :: 40 <= n < 56 ==> Known(y, n)
    ensures forall n :: 56 <= n < 77 ==> Known(y, n)
  {
    hide Known;
    TapsKnown(y, 56); TapsKnown(y, 57); TapsKnown(y, 58); TapsKnown(y, 59); TapsKnown(y, 60);
    TapsKnown(y, 61); TapsKnown(y, 62); TapsKnown(y, 63); TapsKnown(y, 64); TapsKnown(y, 65);
    TapsKnown(y, 66); TapsKnown(y, 67); TapsKnown(y, 68); TapsKnown(y, 69); TapsKnown(y, 70);
    TapsKnown(y, 71); TapsKnown(y, 72); TapsKnown(y, 73); TapsKnown(y, 74); TapsKnown(y, 75);
    TapsKnown(y, 76);
  }

  lemma AllKnown(y: seq<Half>)
    requires |y| == 16
    ensures forall n :: 0 <= n < 77 ==> Known(y, n)
  {
    forall n | 0 <= n < 16
      ensures Known(y, n)
    {
      UnitSelects(y, n);
    }
    hide Known;
    KnownTo35(y);
    KnownTo55(y);
    KnownTo76(y);
  }

  // ----- the blocks select what the register passes on -----

  function LowUnit(i: Index): Half {
    match i
    case X0 => 0x0001 case X1 => 0x0004 case X2 => 0x0010 case X3 => 0x0040
    case X4 => 0x0100 case X5 => 0x0400 case X6 => 0x1000 case X7 => 0x4000
  }

  function HighUnit(i: Index): Half {
    match i
    case X0 => 0x0002 case X1 => 0x0008 case X2 => 0x0020 case X3 => 0x0080
    case X4 => 0x0200 case X5 => 0x0800 case X6 => 0x2000 case X7 => 0x8000
  }

  /** The half-words that a term brings into the low half of a word. */
  function LowMask(t: Term): Half {
    match t
    case LowHalf(i) => LowUnit(i)
    case HighHalf(i) => 0
    case Shl(i) => 0
    case Shr(i) => HighUnit(i)
    case Whole(i) => LowUnit(i)
    case Nothing => 0
  }

  /** The half-words that a term brings into the high half of a word. */
  function HighMask(t: Term): Half {
    match t
    case LowHalf(i) => 0
    case HighHalf(i) => HighUnit(i)
    case Shl(i) => LowUnit(i)
    case Shr(i) => 0
    case Whole(i) => HighUnit(i)
    case Nothing => 0
  }

  function RowLow(row: Row): Half {
    match row
    case End => 0
    case Xor3(a, b, c, rest) => Xor(Xor(Xor(LowMask(a), LowMask(b)), LowMask(c)), RowLow(rest))
  }

  function RowHigh(row: Row): Half {
    match row
    case End => 0
    case Xor3(a, b, c, rest) => Xor(Xor(Xor(HighMask(a), HighMask(b)), HighMask(c)), RowHigh(rest))
  }

  lemma NoLines()
    ensures RowLow(End) == 0 && RowHigh(End) == 0
  {
  }

  lemma Line(row: Row, low: Half, high: Half)
    requires row.Xor3?
    requires low == LowMask(row.a) ^ LowMask(row.b) ^ LowMask(row.c) ^ RowLow(row.rest)
    requires high == HighMask(row.a) ^ HighMask(row.b) ^ HighMask(row.c) ^ RowHigh(row.rest)
    ensures RowLow(row) == low && RowHigh(row) == high
  {
    hide LowMask, HighMask;
  }

  lemma TwelveMasks0()
    ensures RowLow(Twelve0()) == 0x1000 && RowHigh(Twelve0()) == 0x2000
  {
    hide RowLow, RowHigh;
    var row := Twelve0();
    NoLines();
    Line(row, 0x1000, 0x2000);
  }

  lemma TwelveMasks1()
    ensures RowLow(Twelve1()) == 0x4000 && RowHigh(Twelve1()) == 0x8000
  {
    hide RowLow, RowHigh;
    var row := Twelve1();
    NoLines();
    Line(row, 0x4000, 0x8000);
  }

  lemma TwelveMasks2()
    ensures RowLow(Twelve2()) == 0x900F && RowHigh(Twelve2()) == 0xB011
  {
    hide RowLow, RowHigh;
    var row := Twelve2();
    NoLines();
    Line(row.rest.rest.rest, 0x1000, 0x2000);
    Line(row.rest.rest, 0x9000, 0xB000);
    Line(row.rest, 0x900C, 0xB010);
    Line(row, 0x900F, 0xB011);
  }

  lemma TwelveMasks3()
    ensures RowLow(Twelve3()) == 0xF02D && RowHigh(Twelve3()) == 0x7055
  {
    hide RowLow, RowHigh;
    var row := Twelve3();
    NoLines();
    Line(row.rest.rest.rest.rest, 0x9000, 0x2000);
    Line(row.rest.rest.rest, 0xB000, 0x7000);
    Line(row.rest.rest, 0xF020, 0x7040);
    Line(row.rest, 0xF02C, 0x7044);
    Line(row, 0xF02D, 0x7055);
  }

  lemma TwelveMasks4()
    ensures RowLow(Twelve4()) == 0xE0AA && RowHigh(Twelve4()) == 0x515B
  {
    hide RowLow, RowHigh;
    var row := Twelve4();
    NoLines();
    Line(row.rest.rest.rest.rest, 0x8020, 0x4000);
    Line(row.rest.rest.rest, 0xA020, 0x5100);
    Line(row.rest.rest, 0xE0A0, 0x5140);
    Line(row.rest, 0xE0A8, 0x5158);
    Line(row, 0xE0AA, 0x515B);
  }

  lemma TwelveMasks5()
    ensures RowLow(Twelve5()) == 0xA2B6 && RowHigh(Twelve5()) == 0xD563
  {
    hide RowLow, RowHigh;
    var row := Twelve5();
    NoLines();
    Line(row.rest.rest.rest.rest.rest, 0x0010, 0x0020);
    Line(row.rest.rest.rest.rest, 0x2010, 0x4060);
    Line(row.rest.rest.rest, 0x2210, 0x5460);
    Line(row.rest.rest, 0x2290, 0xD560);
    Line(row.rest, 0xA2B4, 0xD560);
    Line(row, 0xA2B6, 0xD563);
  }

  lemma TwelveMasks6()
    ensures RowLow(Twelve6()) == 0x3AC9 && RowHigh(Twelve6()) == 0x7592
  {
    hide RowLow, RowHigh;
    var row := Twelve6();
    NoLines();
    Line(row.rest.rest.rest.rest, 0x0040, 0x0080);
    Line(row.rest.rest.rest, 0x3041, 0x2082);
    Line(row.rest.rest, 0x3841, 0x3482);
    Line(row.rest, 0x38C1, 0x7582);
    Line(row, 0x3AC9, 0x7592);
  }

  lemma TwelveMasks7()
    ensures RowLow(Twelve7()) == 0xEB24 && RowHigh(Twelve7()) == 0x4647
  {
    hide RowLow, RowHigh;
    var row := Twelve7();
    NoLines();
    Line(row.rest.rest.rest.rest, 0x8100, 0x0200);
    Line(row.rest.rest.rest, 0xA900, 0x4200);
    Line(row.rest.rest, 0xEB00, 0x4600);
    Line(row.rest, 0xEB24, 0x4640);
    Line(row, 0xEB24, 0x4647);
  }

  lemma OneMasks0()
    ensures RowLow(One0()) == 0x0002 && RowHigh(One0()) == 0x0004
  {
    hide RowLow, RowHigh;
    var row := One0();
    NoLines();
    Line(row, 0x0002, 0x0004);
  }

  lemma OneMasks1()
    ensures RowLow(One1()) == 0x0008 && RowHigh(One1()) == 0x0010
  {
    hide RowLow, RowHigh;
    var row := One1();
    NoLines();
    Line(row, 0x0008, 0x0010);
  }

  lemma OneMasks2()
    ensures RowLow(One2()) == 0x0020 && RowHigh(One2()) == 0x0040
  {
    hide RowLow, RowHigh;
    var row := One2();
    NoLines();
    Line(row, 0x0020, 0x0040);
  }

  lemma OneMasks3()
    ensures RowLow(One3()) == 0x0080 && RowHigh(One3()) == 0x0100
  {
    hide RowLow, RowHigh;
    var row := One3();
    NoLines();
    Line(row, 0x0080, 0x0100);
  }

  lemma OneMasks4()
    ensures RowLow(One4()) == 0x0200 && RowHigh(One4()) == 0x0400
  {
    hide RowLow, RowHigh;
    var row := One4();
    NoLines();
    Line(row, 0x0200, 0x0400);
  }

  lemma OneMasks5()
    ensures RowLow(One5()) == 0x0800 && RowHigh(One5()) == 0x1000
  {
    hide RowLow, RowHigh;
    var row := One5();
    NoLines();
    Line(row, 0x0800, 0x1000);
  }

  lemma OneMasks6()
    ensures RowLow(One6()) == 0x2000 && RowHigh(One6()) == 0x4000
  {
    hide RowLow, RowHigh;
    var row := One6();
    NoLines();
    Line(row, 0x2000, 0x4000);
  }

  lemma OneMasks7()
    ensures RowLow(One7()) == 0x8000 && RowHigh(One7()) == 0x900F
  {
    hide RowLow, RowHigh;
    var row := One7();
    NoLines();
    Line(row.rest.rest, 0x0000, 0x0002);
    Line(row.rest, 0x0000, 0x9006);
    Line(row, 0x8000, 0x900F);
  }

  lemma SixtyOneMasks0()
    ensures RowLow(SixtyOne0()) == 0xEC8A && RowHigh(SixtyOne0()) == 0x491B
  {
    hide RowLow, RowHigh;
    var row := SixtyOne0();
    NoLines();
    Line(row.rest.rest.rest.rest, 0x8400, 0x0800);
    Line(row.rest.rest.rest, 0xAC00, 0x4800);
    Line(row.rest.rest, 0xEC80, 0x4900);
    Line(row.rest, 0xEC88, 0x4918);
    Line(row, 0xEC8A, 0x491B);
  }

  lemma SixtyOneMasks1()
    ensures RowLow(SixtyOne1()) == 0x9236 && RowHigh(SixtyOne1()) == 0xB463
  {
    hide RowLow, RowHigh;
    var row := SixtyOne1();
    NoLines();
    Line(row.rest.rest.rest.rest, 0x0010, 0x0020);
    Line(row.rest.rest.rest, 0x9010, 0x3020);
    Line(row.rest.rest, 0x9210, 0xB420);
    Line(row.rest, 0x9234, 0xB460);
    Line(row, 0x9236, 0xB463);
  }

  lemma SixtyOneMasks2()
    ensures RowLow(SixtyOne2()) == 0xF8C9 && RowHigh(SixtyOne2()) == 0x619D
  {
    hide RowLow, RowHigh;
    var row := SixtyOne2();
    NoLines();
    Line(row.rest.rest.rest.rest, 0x9040, 0x2080);
    Line(row.rest.rest.rest, 0xB840, 0x6080);
    Line(row.rest.rest, 0xB8C0, 0x6188);
    Line(row.rest, 0xF8C8, 0x6198);
    Line(row, 0xF8C9, 0x619D);
  }

  lemma SixtyOneMasks3()
    ensures RowLow(SixtyOne3()) == 0xC33A && RowHigh(SixtyOne3()) == 0x167B
  {
    hide RowLow, RowHigh;
    var row := SixtyOne3();
    NoLines();
    Line(row.rest.rest.rest.rest, 0x8110, 0x0220);
    Line(row.rest.rest.rest, 0x8310, 0x1620);
    Line(row.rest.rest, 0xC330, 0x1660);
    Line(row.rest, 0xC338, 0x1678);
    Line(row, 0xC33A, 0x167B);
  }

  lemma SixtyOneMasks4()
    ensures RowLow(SixtyOne4()) == 0x2CF6 && RowHigh(SixtyOne4()) == 0x59EC
  {
    hide RowLow, RowHigh;
    var row := SixtyOne4();
    NoLines();
    Line(row.rest.rest.rest.rest, 0x0440, 0x0880);
    Line(row.rest.rest.rest, 0x0454, 0x48A8);
    Line(row.rest.rest, 0x2C54, 0x58A8);
    Line(row.rest, 0x2CD4, 0x59E8);
    Line(row, 0x2CF6, 0x59EC);
  }

  lemma SixtyOneMasks5()
    ensures RowLow(SixtyOne5()) == 0xB3D8 && RowHigh(SixtyOne5()) == 0xF7BF
  {
    hide RowLow, RowHigh;
    var row := SixtyOne5();
    NoLines();
    Line(row.rest.rest.rest.rest.rest.rest, 0x1000, 0x2000);
    Line(row.rest.rest.rest.rest.rest, 0x1150, 0x22A0);
    Line(row.rest.rest.rest.rest, 0xB150, 0x62A0);
    Line(row.rest.rest.rest, 0xB350, 0x76A0);
    Line(row.rest.rest, 0xB3D0, 0xF7A0);
    Line(row.rest, 0xB3D8, 0xF7B8);
    Line(row, 0xB3D8, 0xF7BF);
  }

  lemma SixtyOneMasks6()
    ensures RowLow(SixtyOne6()) == 0x7F71 && RowHigh(SixtyOne6()) == 0xFEE2
  {
    hide RowLow, RowHigh;
    var row := SixtyOne6();
    NoLines();
    Line(row.rest.rest.rest.rest, 0x1500, 0x2A00);
    Line(row.rest.rest.rest, 0x1551, 0x2AA2);
    Line(row.rest.rest, 0x7551, 0xEAA2);
    Line(row.rest, 0x7D51, 0xFEA2);
    Line(row, 0x7F71, 0xFEE2);
  }

  lemma SixtyOneMasks7()
    ensures RowLow(SixtyOne7()) == 0x6DCB && RowHigh(SixtyOne7()) == 0xDB96
  {
    hide RowLow, RowHigh;
    var row := SixtyOne7();
    NoLines();
    Line(row.rest.rest.rest.rest, 0x0540, 0x0A80);
    Line(row.rest.rest.rest, 0x4541, 0xCA82);
    Line(row.rest.rest, 0x6D41, 0xDA82);
    Line(row.rest, 0x6DC1, 0xDB92);
    Line(row, 0x6DCB, 0xDB96);
  }

  // ----- the blocks on words -----

  lemma KeepHalves(x: Word)
    ensures Lo(KeepLow(x)) == Lo(x) && Hi(KeepLow(x)) == 0
    ensures Lo(KeepHigh(x)) == 0 && Hi(KeepHigh(x)) == Hi(x)
  {
  }

  lemma UpHalves(x: Word)
    ensures Lo(Up(x)) == 0 && Hi(Up(x)) == Lo(x)
  {
  }

  lemma DownHalves(x: Word)
    ensures Lo(Down(x)) == Hi(x) && Hi(Down(x)) == 0
  {
  }

  lemma NoHalves()
    ensures Lo(0) == 0 && Hi(0) == 0
  {
  }

  lemma HalvesAt(w: seq<Word>, i: nat)
    requires |w| == 8 && i < 8
    ensures Halves(w)[2 * i] == Lo(w[i]) && Halves(w)[2 * i + 1] == Hi(w[i])
  {
    hide Lo, Hi;
    assert i == 0 || i == 1 || i == 2 || i == 3 || i == 4 || i == 5 || i == 6 || i == 7;
  }

  lemma UnitIsMask(i: Index)
    ensures LowUnit(i) == Mask(2 * i.Number()) && HighUnit(i) == Mask(2 * i.Number() + 1)
  {
  }

  lemma UnitHalves(i: Index, v: seq<Word>)
    requires |v| == 8
    ensures Selected(LowUnit(i), Halves(v)) == Lo(v[i.Number()])
    ensures Selected(HighUnit(i), Halves(v)) == Hi(v[i.Number()])
  {
    hide *;
    UnitIsMask(i);
    UnitSelects(Halves(v), 2 * i.Number());
    UnitSelects(Halves(v), 2 * i.Number() + 1);
    HalvesAt(v, i.Number());
  }

  lemma ValueHalves(t: Term, v: seq<Word>)
    requires |v| == 8
    ensures Lo(Value(t, v)) == Selected(LowMask(t), Halves(v)) && Hi(Value(t, v)) == Selected(HighMask(t), Halves(v))
  {
    hide Lo, Hi, Selected, Halves, LowUnit, HighUnit, KeepLow, KeepHigh, Up, Down;
    SelectedZero(Halves(v));
    NoHalves();
    match t {
      case LowHalf(i) =>
        UnitHalves(i, v);
        KeepHalves(v[i.Number()]);
      case HighHalf(i) =>
        UnitHalves(i, v);
        KeepHalves(v[i.Number()]);
      case Shl(i) =>
        UnitHalves(i, v);
        UpHalves(v[i.Number()]);
      case Shr(i) =>
        UnitHalves(i, v);
        DownHalves(v[i.Number()]);
      case Whole(i) => UnitHalves(i, v);
      case Nothing =>
    }
  }

  lemma XorHalves(a: Word, b: Word)
    ensures Lo(Add(a, b)) == Xor(Lo(a), Lo(b)) && Hi(Add(a, b)) == Xor(Hi(a), Hi(b))
  {
  }

  lemma TwelveMask(i: nat)
    requires i < 8
    ensures RowLow(Twelve(i)) == Mask(2 * i + 12) && RowHigh(Twelve(i)) == Mask(2 * i + 13)
  {
    hide RowLow, RowHigh, Twelve0, Twelve1, Twelve2, Twelve3, Twelve4, Twelve5, Twelve6, Twelve7;
    if i == 0 {
      TwelveMasks0();
    } else if i == 1 {
      TwelveMasks1();
    } else if i == 2 {
      TwelveMasks2();
    } else if i == 3 {
      TwelveMasks3();
    } else if i == 4 {
      TwelveMasks4();
    } else if i == 5 {
      TwelveMasks5();
    } else if i == 6 {
      TwelveMasks6();
    } else {
      TwelveMasks7();
    }
  }

  lemma OneMask(i: nat)
    requires i < 8
    ensures RowLow(One(i)) == Mask(2 * i + 1) && RowHigh(One(i)) == Mask(2 * i + 2)
  {
    hide RowLow, RowHigh, One0, One1, One2, One3, One4, One5, One6, One7;
    if i == 0 {
      OneMasks0();
    } else if i == 1 {
      OneMasks1();
    } else if i == 2 {
      OneMasks2();
    } else if i == 3 {
      OneMasks3();
    } else if i == 4 {
      OneMasks4();
    } else if i == 5 {
      OneMasks5();
    } else if i == 6 {
      OneMasks6();
    } else {
      OneMasks7();
    }
  }

  lemma SixtyOneMask(i: nat)
    requires i < 8
    ensures RowLow(SixtyOne(i)) == Mask(2 * i + 61) && RowHigh(SixtyOne(i)) == Mask(2 * i + 62)
  {
    hide RowLow, RowHigh, SixtyOne0, SixtyOne1, SixtyOne2, SixtyOne3, SixtyOne4, SixtyOne5, SixtyOne6, SixtyOne7;
    if i == 0 {
      SixtyOneMasks0();
    } else if i == 1 {
      SixtyOneMasks1();
    } else if i == 2 {
      SixtyOneMasks2();
    } else if i == 3 {
      SixtyOneMasks3();
    } else if i == 4 {
      SixtyOneMasks4();
    } else if i == 5 {
      SixtyOneMasks5();
    } else if i == 6 {
      SixtyOneMasks6();
    } else {
      SixtyOneMasks7();
    }
  }

  /** A block whose rows select the half-words from `at` on passes on the stream from there. */
  lemma {:induction false} RowHalves(start: Word, row: Row, v: seq<Word>)
    requires |v| == 8
    ensures Lo(RowValue(start, row, v)) == Xor(Lo(start), Selected(RowLow(row), Halves(v)))
    ensures Hi(RowValue(start, row, v)) == Xor(Hi(start), Selected(RowHigh(row), Halves(v)))
    decreases row
  {
    var y := Halves(v);
    SelectedZero(y);
    if row == End {
      XorZero(Lo(start));
      XorZero(Hi(start));
    } else {
      var next := Add3(start, Value(row.a, v), Value(row.b, v), Value(row.c, v));
      RowHalves(next, row.rest, v);
      LineHalves(start, row, v, next);
    }
  }

  lemma LineHalves(start: Word, row: Row, v: seq<Word>, next: Word)
    requires |v| == 8 && row.Xor3? && next == Add3(start, Value(row.a, v), Value(row.b, v), Value(row.c, v))
    ensures var y := Halves(v);
      && Xor(Lo(next), Selected(RowLow(row.rest), y)) == Xor(Lo(start), Selected(RowLow(row), y))
      && Xor(Hi(next), Selected(RowHigh(row.rest), y)) == Xor(Hi(start), Selected(RowHigh(row), y))
  {
    hide Lo, Hi, Xor, Value, Halves, LowMask, HighMask, Selected, Add3;
    ThreeHalves(start, Value(row.a, v), Value(row.b, v), Value(row.c, v), next);
    ValueHalves(row.a, v);
    ValueHalves(row.b, v);
    ValueHalves(row.c, v);
    Chain(Lo(start), LowMask(row.a), LowMask(row.b), LowMask(row.c), RowLow(row.rest), Halves(v));
    Chain(Hi(start), HighMask(row.a), HighMask(row.b), HighMask(row.c), RowHigh(row.rest), Halves(v));
  }

  lemma ThreeHalves(start: Word, p: Word, q: Word, r: Word, next: Word)
    requires next == Add3(start, p, q, r)
    ensures Lo(next) == Xor(Xor(Xor(Lo(start), Lo(p)), Lo(q)), Lo(r))
    ensures Hi(next) == Xor(Xor(Xor(Hi(start), Hi(p)), Hi(q)), Hi(r))
  {
    hide Lo, Hi, Xor, Add;
    XorHalves(start, p);
    XorHalves(Add(start, p), q);
    XorHalves(Add(Add(start, p), q), r);
  }

  lemma Chain(s: Half, a: Half, b: Half, c: Half, d: Half, y: seq<Half>)
    ensures Xor(Xor(Xor(Xor(s, Selected(a, y)), Selected(b, y)), Selected(c, y)), Selected(d, y)) ==
      Xor(s, Selected(Xor(Xor(Xor(a, b), c), d), y))
  {
    hide Xor, Selected;
    SelectedXor(a, b, y);
    SelectedXor(Xor(a, b), c, y);
    SelectedXor(Xor(Xor(a, b), c), d, y);
    var p, q, r, t := Selected(a, y), Selected(b, y), Selected(c, y), Selected(d, y);
    XorRegroups(s, p, q);
    XorRegroups(s, Xor(p, q), r);
    XorRegroups(s, Xor(Xor(p, q), r), t);
  }

  /** A row with the masks of two half-words of the stream adds them to the halves of its start. */
  lemma RowPasses(start: Word, row: Row, v: seq<Word>, n: nat)
    requires |v| == 8 && n + 1 < 77 && RowLow(row) == Mask(n) && RowHigh(row) == Mask(n + 1)
    ensures Lo(RowValue(start, row, v)) == Xor(Lo(start), Stream(Halves(v), n))
    ensures Hi(RowValue(start, row, v)) == Xor(Hi(start), Stream(Halves(v), n + 1))
  {
    AllKnown(Halves(v));
    assert Known(Halves(v), n) && Known(Halves(v), n + 1);
    hide Lo, Hi, Xor, RowValue, RowLow, RowHigh, Selected, Stream, Mask, Halves;
    RowHalves(start, row, v);
  }

  /** Word `i` of `w` is that of `start` plus the two half-words that the register passes on after `k` steps. */
  predicate WordPasses(start: seq<Word>, v: seq<Word>, w: seq<Word>, k: nat, i: nat)
    requires |start| == 8 && |v| == 8 && |w| == 8 && i < 8
  {
    && Lo(w[i]) == Xor(Lo(start[i]), Stream(Halves(v), k + 2 * i))
    && Hi(w[i]) == Xor(Hi(start[i]), Stream(Halves(v), k + 2 * i + 1))
  }

  lemma PlusAt(a: seq<Half>, b: seq<Half>, j: nat)
    requires |a| == |b| && j < |a|
    ensures Plus(a, b)[j] == Xor(a[j], b[j])
  {
    hide Xor;
  }

  lemma LowIs(start: seq<Word>, v: seq<Word>, w: seq<Word>, k: nat, i: nat)
    requires |start| == 8 && |v| == 8 && |w| == 8 && i < 8
    requires Lo(w[i]) == Xor(Lo(start[i]), Stream(Halves(v), k + 2 * i))
    ensures Halves(w)[2 * i] == Plus(Halves(start), PsiTimes(k, Halves(v)))[2 * i]
  {
    hide *;
    PsiShowsStream(k, Halves(v));
    HalvesAt(start, i);
    HalvesAt(w, i);
    PlusAt(Halves(start), PsiTimes(k, Halves(v)), 2 * i);
  }

  lemma HighIs(start: seq<Word>, v: seq<Word>, w: seq<Word>, k: nat, i: nat)
    requires |start| == 8 && |v| == 8 && |w| == 8 && i < 8
    requires Hi(w[i]) == Xor(Hi(start[i]), Stream(Halves(v), k + 2 * i + 1))
    ensures Halves(w)[2 * i + 1] == Plus(Halves(start), PsiTimes(k, Halves(v)))[2 * i + 1]
  {
    hide *;
    PsiShowsStream(k, Halves(v));
    HalvesAt(start, i);
    HalvesAt(w, i);
    assert PsiTimes(k, Halves(v))[2 * i + 1] == Stream(Halves(v), k + (2 * i + 1));
    PlusAt(Halves(start), PsiTimes(k, Halves(v)), 2 * i + 1);
  }

  lemma WordIs(start: seq<Word>, v: seq<Word>, w: seq<Word>, k: nat, i: nat)
    requires |start| == 8 && |v| == 8 && |w| == 8 && i < 8 && WordPasses(start, v, w, k, i)
    ensures Halves(w)[2 * i] == Plus(Halves(start), PsiTimes(k, Halves(v)))[2 * i]
    ensures Halves(w)[2 * i + 1] == Plus(Halves(start), PsiTimes(k, Halves(v)))[2 * i + 1]
  {
    hide Lo, Hi, Xor, Stream, Halves, Plus, PsiTimes;
    LowIs(start, v, w, k, i);
    HighIs(start, v, w, k, i);
  }

  lemma PassedOn(start: seq<Word>, v: seq<Word>, w: seq<Word>, k: nat)
    requires |start| == 8 && |v| == 8 && |w| == 8
    requires forall i :: 0 <= i < 8 ==> WordPasses(start, v, w, k, i)
    ensures Halves(w) == Plus(Halves(start), PsiTimes(k, Halves(v)))
  {
    hide *;
    var h, z := Halves(w), Plus(Halves(start), PsiTimes(k, Halves(v)));
    forall j | 0 <= j < 16
      ensures h[j] == z[j]
    {
      WordIs(start, v, w, k, j / 2);
    }
  }

  lemma RowIsWord(start: seq<Word>, v: seq<Word>, w: seq<Word>, k: nat, i: nat, row: Row)
    requires |start| == 8 && |v| == 8 && |w| == 8 && i < 8 && k + 2 * i + 1 < 77
    requires w[i] == RowValue(start[i], row, v)
    requires RowLow(row) == Mask(k + 2 * i) && RowHigh(row) == Mask(k + 2 * i + 1)
    ensures WordPasses(start, v, w, k, i)
  {
    hide Lo, Hi, Xor, RowValue, RowLow, RowHigh, Stream, Mask, Halves;
    RowPasses(start[i], row, v, k + 2 * i);
  }

  /** The first block of XORs. */
  function AfterTwelve(start: seq<Word>, v: seq<Word>): (w: seq<Word>)
    requires |start| == 8 && |v| == 8
    ensures |w| == 8
  {
    seq(8, i requires 0 <= i < 8 => RowValue(start[i], Twelve(i), v))
  }

  lemma AfterTwelveAt(start: seq<Word>, v: seq<Word>, i: nat)
    requires |start| == 8 && |v| == 8 && i < 8
    ensures AfterTwelve(start, v)[i] == RowValue(start[i], Twelve(i), v)
  {
    hide RowValue, Twelve;
  }

  lemma AfterTwelveIs(start: seq<Word>, v: seq<Word>)
    requires |start| == 8 && |v| == 8
    ensures Halves(AfterTwelve(start, v)) == Plus(Halves(start), PsiTimes(12, Halves(v)))
  {
    hide *;
    var w := AfterTwelve(start, v);
    forall i | 0 <= i < 8
      ensures WordPasses(start, v, w, 12, i)
    {
      AfterTwelveAt(start, v, i);
      TwelveMask(i);
      RowIsWord(start, v, w, 12, i, Twelve(i));
    }
    PassedOn(start, v, w, 12);
  }

  /** The second block of XORs. */
  function AfterOne(start: seq<Word>, v: seq<Word>): (w: seq<Word>)
    requires |start| == 8 && |v| == 8
    ensures |w| == 8
  {
    seq(8, i requires 0 <= i < 8 => RowValue(start[i], One(i), v))
  }

  lemma AfterOneAt(start: seq<Word>, v: seq<Word>, i: nat)
    requires |start| == 8 && |v| == 8 && i < 8
    ensures AfterOne(start, v)[i] == RowValue(start[i], One(i), v)
  {
    hide RowValue, One;
  }

  lemma AfterOneIs(start: seq<Word>, v: seq<Word>)
    requires |start| == 8 && |v| == 8
    ensures Halves(AfterOne(start, v)) == Plus(Halves(start), PsiTimes(1, Halves(v)))
  {
    hide *;
    var w := AfterOne(start, v);
    forall i | 0 <= i < 8
      ensures WordPasses(start, v, w, 1, i)
    {
      AfterOneAt(start, v, i);
      OneMask(i);
      RowIsWord(start, v, w, 1, i, One(i));
    }
    PassedOn(start, v, w, 1);
  }

  /** The last block of XORs. */
  function AfterSixtyOne(start: seq<Word>, v: seq<Word>): (w: seq<Word>)
    requires |start| == 8 && |v| == 8
    ensures |w| == 8
  {
    seq(8, i requires 0 <= i < 8 => RowValue(start[i], SixtyOne(i), v))
  }

  lemma AfterSixtyOneAt(start: seq<Word>, v: seq<Word>, i: nat)
    requires |start| == 8 && |v| == 8 && i < 8
    ensures AfterSixtyOne(start, v)[i] == RowValue(start[i], SixtyOne(i), v)
  {
    hide RowValue, SixtyOne;
  }

  lemma AfterSixtyOneIs(start: seq<Word>, v: seq<Word>)
    requires |start| == 8 && |v| == 8
    ensures Halves(AfterSixtyOne(start, v)) == Plus(Halves(start), PsiTimes(61, Halves(v)))
  {
    hide *;
    var w := AfterSixtyOne(start, v);
    forall i | 0 <= i < 8
      ensures WordPasses(start, v, w, 61, i)
    {
      AfterSixtyOneAt(start, v, i);
      SixtyOneMask(i);
      RowIsWord(start, v, w, 61, i, SixtyOne(i));
    }
    PassedOn(start, v, w, 61);
  }

  /** The end of `pp_crypto_hash_gost3411_process`: the three blocks, one after the other. */
  method Mix(hash: array<Word>, data: seq<Word>, S: seq<Word>)
    requires hash.Length == 8 && |data| == 8 && |S| == 8
    modifies hash
    ensures Halves(hash[..]) == Mixed(old(Halves(hash[..])), Halves(data), Halves(S))
  {
    hide Halves, AfterTwelve, AfterOne, AfterSixtyOne, PsiTimes, Plus;
    var U := AfterTwelve(data, S);
    AfterTwelveIs(data, S);
    var V := AfterOne(hash[..], U);
    AfterOneIs(hash[..], U);
    var zeros := [0, 0, 0, 0, 0, 0, 0, 0];
    var w := AfterSixtyOne(zeros, V);
    AfterSixtyOneIs(zeros, V);
    ZerosAdd(PsiTimes(61, Halves(V)));
    for i := 0 to 8
      invariant hash[..i] == w[..i]
    {
      hash[i] := w[i];
    }
    assert hash[..] == w;
  }

  lemma ZerosAdd(z: seq<Half>)
    requires |z| == 16
    ensures Plus(Halves([0, 0, 0, 0, 0, 0, 0, 0]), z) == z
  {
    NoHalves();
    forall i | 0 <= i < 16
      ensures Plus(Halves([0, 0, 0, 0, 0, 0, 0, 0]), z)[i] == z[i]
    {
      XorZero(z[i]);
    }
  }
}
