// The step function of plibsys/src/pcryptohash-gost3411.c: key generation, encryption and output mixing, against
// RFC 5831, section 5. Of eight words the first is the lowest.

module GostStep {
  import opened Words32
  import GostMixing

  /** `puint32[8]`, whose places the source only names by constants. */
  datatype Eight = Eight(x0: Word, x1: Word, x2: Word, x3: Word, x4: Word, x5: Word, x6: Word, x7: Word) {
    function Words(): (w: seq<Word>)
      ensures |w| == 8
    {
      [x0, x1, x2, x3, x4, x5, x6, x7]
    }
  }

  function EightOf(w: seq<Word>): (x: Eight)
    requires |w| == 8
    ensures x.Words() == w
  {
    Eight(w[0], w[1], w[2], w[3], w[4], w[5], w[6], w[7])
  }

  // ----- key generation in the standard, section 5.1 -----

  function Xor(a: Word, b: Word): Word { a ^ b }

  function Both(a: Eight, b: Eight): Eight {
    Eight(Xor(a.x0, b.x0), Xor(a.x1, b.x1), Xor(a.x2, b.x2), Xor(a.x3, b.x3),
          Xor(a.x4, b.x4), Xor(a.x5, b.x5), Xor(a.x6, b.x6), Xor(a.x7, b.x7))
  }

  /** A: four double words move down by one and the sum of the lowest two comes in at the top. */
  function A(x: Eight): Eight { Eight(x.x2, x.x3, x.x4, x.x5, x.x6, x.x7, Xor(x.x0, x.x2), Xor(x.x1, x.x3)) }

  /** Byte `n` of a word. */
  function ByteOf(x: Word, n: nat): Word
    requires n < 4
  {
    if n == 0 then x & 0xFF else if n == 1 then (x >> 8) & 0xFF else if n == 2 then (x >> 16) & 0xFF else x >> 24
  }

  /** Byte `n` of eight words. */
  function ByteAt(x: Eight, n: nat): Word
    requires n < 32
  {
    ByteOf(x.Words()[n / 4], n % 4)
  }

  /** The word of four bytes. */
  function Joined(a: Word, b: Word, c: Word, d: Word): Word { a | (b << 8) | (c << 16) | (d << 24) }

  /** Word `j` of P: byte 4 * j + i of the result is byte 8 * i + j. */
  function PAt(x: Eight, j: nat): Word
    requires j < 8
  {
    Joined(ByteAt(x, j), ByteAt(x, 8 + j), ByteAt(x, 16 + j), ByteAt(x, 24 + j))
  }

  function P(x: Eight): Eight {
    Eight(PAt(x, 0), PAt(x, 1), PAt(x, 2), PAt(x, 3), PAt(x, 4), PAt(x, 5), PAt(x, 6), PAt(x, 7))
  }

  const ZEROS := Eight(0, 0, 0, 0, 0, 0, 0, 0)

  const C3 :=
    Eight(0xFF00FF00, 0xFF00FF00, 0x00FF00FF, 0x00FF00FF, 0x00FFFF00, 0xFF0000FF, 0x000000FF, 0xFF00FFFF)

  function C(i: nat): Eight { if i == 3 then C3 else ZEROS }

  function U(i: nat, h: Eight): Eight {
    if i <= 1 then h else Both(A(U(i - 1, h)), C(i))
  }

  function V(i: nat, m: Eight): Eight {
    if i <= 1 then m else A(A(V(i - 1, m)))
  }

  /** Key `i` of the four. */
  function Key(i: nat, h: Eight, m: Eight): Eight { P(Both(U(i, h), V(i, m))) }

  // ----- key generation in the source -----

  /** The four kinds of lines of `P_GOST_3411_P`. */
  function Line1(a: Word, b: Word, c: Word, d: Word): Word {
    (a & 0x000000FF) | ((b << 8) & 0x0000FF00) | ((c << 16) & 0x00FF0000) | ((d << 24) & 0xFF000000)
  }

  function Line2(a: Word, b: Word, c: Word, d: Word): Word {
    ((a >> 8) & 0x000000FF) | (b & 0x0000FF00) | ((c << 8) & 0x00FF0000) | ((d << 16) & 0xFF000000)
  }

  function Line3(a: Word, b: Word, c: Word, d: Word): Word {
    ((a >> 16) & 0x000000FF) | ((b >> 8) & 0x0000FF00) | (c & 0x00FF0000) | ((d << 8) & 0xFF000000)
  }

  function Line4(a: Word, b: Word, c: Word, d: Word): Word {
    ((a >> 24) & 0x000000FF) | ((b >> 16) & 0x0000FF00) | ((c >> 8) & 0x00FF0000) | (d & 0xFF000000)
  }

  lemma Line1Bytes(a: Word, b: Word, c: Word, d: Word)
    ensures Line1(a, b, c, d) == Joined(ByteOf(a, 0), ByteOf(b, 0), ByteOf(c, 0), ByteOf(d, 0))
  {
  }

  lemma Line2Bytes(a: Word, b: Word, c: Word, d: Word)
    ensures Line2(a, b, c, d) == Joined(ByteOf(a, 1), ByteOf(b, 1), ByteOf(c, 1), ByteOf(d, 1))
  {
  }

  lemma Line3Bytes(a: Word, b: Word, c: Word, d: Word)
    ensures Line3(a, b, c, d) == Joined(ByteOf(a, 2), ByteOf(b, 2), ByteOf(c, 2), ByteOf(d, 2))
  {
  }

  lemma Line4Bytes(a: Word, b: Word, c: Word, d: Word)
    ensures Line4(a, b, c, d) == Joined(ByteOf(a, 3), ByteOf(b, 3), ByteOf(c, 3), ByteOf(d, 3))
  {
  }

  /** `P_GOST_3411_P`. */
  function Permuted(d: Eight): Eight {
    Eight(Line1(d.x0, d.x2, d.x4, d.x6), Line2(d.x0, d.x2, d.x4, d.x6),
          Line3(d.x0, d.x2, d.x4, d.x6), Line4(d.x0, d.x2, d.x4, d.x6),
          Line1(d.x1, d.x3, d.x5, d.x7), Line2(d.x1, d.x3, d.x5, d.x7),
          Line3(d.x1, d.x3, d.x5, d.x7), Line4(d.x1, d.x3, d.x5, d.x7))
  }

  lemma BytesAt(x: Eight, n: nat)
    requires n < 4
    ensures ByteAt(x, n) == ByteOf(x.x0, n) && ByteAt(x, 4 + n) == ByteOf(x.x1, n)
    ensures ByteAt(x, 8 + n) == ByteOf(x.x2, n) && ByteAt(x, 12 + n) == ByteOf(x.x3, n)
    ensures ByteAt(x, 16 + n) == ByteOf(x.x4, n) && ByteAt(x, 20 + n) == ByteOf(x.x5, n)
    ensures ByteAt(x, 24 + n) == ByteOf(x.x6, n) && ByteAt(x, 28 + n) == ByteOf(x.x7, n)
  {
    hide ByteOf;
  }

  lemma PWords(x: Eight, n: nat)
    requires n < 4
    ensures PAt(x, n) == Joined(ByteOf(x.x0, n), ByteOf(x.x2, n), ByteOf(x.x4, n), ByteOf(x.x6, n))
    ensures PAt(x, 4 + n) == Joined(ByteOf(x.x1, n), ByteOf(x.x3, n), ByteOf(x.x5, n), ByteOf(x.x7, n))
  {
    hide ByteOf, ByteAt, Joined;
    BytesAt(x, n);
  }

  /** The lines of the macro permute the bytes as the standard does. */
  lemma PermutedIs(x: Eight)
    ensures Permuted(x) == P(x)
  {
    hide Line1, Line2, Line3, Line4, Joined, ByteOf, ByteAt, PAt;
    PWords(x, 0);
    PWords(x, 1);
    PWords(x, 2);
    PWords(x, 3);
    Line1Bytes(x.x0, x.x2, x.x4, x.x6);
    Line2Bytes(x.x0, x.x2, x.x4, x.x6);
    Line3Bytes(x.x0, x.x2, x.x4, x.x6);
    Line4Bytes(x.x0, x.x2, x.x4, x.x6);
    Line1Bytes(x.x1, x.x3, x.x5, x.x7);
    Line2Bytes(x.x1, x.x3, x.x5, x.x7);
    Line3Bytes(x.x1, x.x3, x.x5, x.x7);
    Line4Bytes(x.x1, x.x3, x.x5, x.x7);
  }

  /** Eight words that are read from place 2 or 4 on, going round. */
  function From2(x: Eight): Eight { Eight(x.x2, x.x3, x.x4, x.x5, x.x6, x.x7, x.x0, x.x1) }

  function From4(x: Eight): Eight { Eight(x.x4, x.x5, x.x6, x.x7, x.x0, x.x1, x.x2, x.x3) }

  /** The second key. A is applied to `u` once and to `v` twice without moving a word. */
  method SecondKey(u: Eight, v: Eight) returns (U: Eight, V: Eight, W: Eight)
    ensures From2(U) == A(u) && From4(V) == A(A(v)) && W == Both(From2(U), From4(V))
  {
    hide Xor;
    U, V, W := u, v, ZEROS;
    W := W.(x0 := Xor(U.x2, V.x4));
    W := W.(x1 := Xor(U.x3, V.x5));
    W := W.(x2 := Xor(U.x4, V.x6));
    W := W.(x3 := Xor(U.x5, V.x7));
    V := V.(x0 := Xor(V.x0, V.x2));
    W := W.(x4 := Xor(U.x6, V.x0));
    V := V.(x1 := Xor(V.x1, V.x3));
    W := W.(x5 := Xor(U.x7, V.x1));
    U, V := U.(x0 := Xor(U.x0, U.x2)), V.(x2 := Xor(V.x2, V.x4));
    W := W.(x6 := Xor(U.x0, V.x2));
    U, V := U.(x1 := Xor(U.x1, U.x3)), V.(x3 := Xor(V.x3, V.x5));
    W := W.(x7 := Xor(U.x1, V.x3));
  }

  lemma XorRegroups(a: Word, b: Word, c: Word)
    ensures Xor(a, Xor(b, c)) == Xor(Xor(a, b), c)
  {
  }

  /** The third key, with the constant. */
  method ThirdKey(u: Eight, v: Eight) returns (U: Eight, V: Eight, W: Eight)
    ensures From4(U) == Both(A(From2(u)), C3) && V == A(A(From4(v))) && W == Both(From4(U), V)
  {
    hide Xor;
    XorRegroups(u.x2, u.x4, 0x000000FF);
    XorRegroups(u.x3, u.x5, 0xFF00FFFF);
    U, V, W := u, v, ZEROS;
    U := U.(x2 := Xor(U.x2, Xor(U.x4, 0x000000FF)));
    U := U.(x3 := Xor(U.x3, Xor(U.x5, 0xFF00FFFF)));
    U := U.(x4 := Xor(U.x4, 0xFF00FF00));
    U := U.(x5 := Xor(U.x5, 0xFF00FF00));
    U := U.(x6 := Xor(U.x6, 0x00FF00FF));
    U := U.(x7 := Xor(U.x7, 0x00FF00FF));
    U := U.(x0 := Xor(U.x0, 0x00FFFF00));
    U := U.(x1 := Xor(U.x1, 0xFF0000FF));
    W := W.(x0 := Xor(U.x4, V.x0));
    W := W.(x2 := Xor(U.x6, V.x2));
    V := V.(x4 := Xor(V.x4, V.x6));
    W := W.(x4 := Xor(U.x0, V.x4));
    V := V.(x6 := Xor(V.x6, V.x0));
    W := W.(x6 := Xor(U.x2, V.x6));
    W := W.(x1 := Xor(U.x5, V.x1));
    W := W.(x3 := Xor(U.x7, V.x3));
    V := V.(x5 := Xor(V.x5, V.x7));
    W := W.(x5 := Xor(U.x1, V.x5));
    V := V.(x7 := Xor(V.x7, V.x1));
    W := W.(x7 := Xor(U.x3, V.x7));
  }

  /** The fourth key. */
  method FourthKey(u: Eight, v: Eight) returns (W: Eight)
    ensures W == Both(A(From4(u)), A(A(v)))
  {
    hide Xor;
    var U, V;
    U, V, W := u, v, ZEROS;
    W := W.(x0 := Xor(U.x6, V.x4));
    W := W.(x1 := Xor(U.x7, V.x5));
    W := W.(x2 := Xor(U.x0, V.x6));
    W := W.(x3 := Xor(U.x1, V.x7));
    V := V.(x0 := Xor(V.x0, V.x2));
    W := W.(x4 := Xor(U.x2, V.x0));
    V := V.(x1 := Xor(V.x1, V.x3));
    W := W.(x5 := Xor(U.x3, V.x1));
    U, V := U.(x4 := Xor(U.x4, U.x6)), V.(x2 := Xor(V.x2, V.x4));
    W := W.(x6 := Xor(U.x4, V.x2));
    U, V := U.(x5 := Xor(U.x5, U.x7)), V.(x3 := Xor(V.x3, V.x5));
    W := W.(x7 := Xor(U.x5, V.x3));
  }

  lemma ZerosAdd(x: Eight)
    ensures Both(x, ZEROS) == x
  {
    XorZero(x.x0);
    XorZero(x.x1);
    XorZero(x.x2);
    XorZero(x.x3);
    XorZero(x.x4);
    XorZero(x.x5);
    XorZero(x.x6);
    XorZero(x.x7);
    hide Xor;
  }

  lemma XorZero(w: Word)
    ensures Xor(w, 0) == w
  {
  }

  lemma KeysUnfold(h: Eight, m: Eight)
    ensures U(1, h) == h && U(2, h) == A(h) && U(3, h) == Both(A(U(2, h)), C3) && U(4, h) == A(U(3, h))
    ensures V(1, m) == m && V(2, m) == A(A(m)) && V(3, m) == A(A(V(2, m))) && V(4, m) == A(A(V(3, m)))
  {
    hide A, Both;
    ZerosAdd(A(h));
    ZerosAdd(A(U(3, h)));
  }

  /** The four keys are those of the standard. */
  method GenerateKeys(hash: Eight, data: Eight) returns (K1: Eight, K2: Eight, K3: Eight, K4: Eight)
    ensures K1 == Key(1, hash, data) && K2 == Key(2, hash, data) && K3 == Key(3, hash, data) && K4 == Key(4, hash, data)
  {
    KeysUnfold(hash, data);
    hide A, P, Permuted, U, V, From2, From4;
    var u, v, w := hash, data, ZEROS;
    w := Both(u, v);
    PermutedIs(w);
    K1 := Permuted(w);
    u, v, w := SecondKey(u, v);
    PermutedIs(w);
    K2 := Permuted(w);
    u, v, w := ThirdKey(u, v);
    PermutedIs(w);
    K3 := Permuted(w);
    w := FourthKey(u, v);
    PermutedIs(w);
    K4 := Permuted(w);
  }

  // ----- encryption: section 5.2 of RFC 5831 and section 5 of RFC 5830 -----

  /** A shift by eleven bits towards the highest one, going round. */
  function Rotl11(x: Word): Word { x.RotateLeft(11) }

  type Nib = w: Word | w < 16

  /** The substitution boxes of section 11.2 of RFC 4357. */
  const BOXES: seq<seq<Nib>> := [
    [0x4, 0xA, 0x9, 0x2, 0xD, 0x8, 0x0, 0xE, 0x6, 0xB, 0x1, 0xC, 0x7, 0xF, 0x5, 0x3],
    [0xE, 0xB, 0x4, 0xC, 0x6, 0xD, 0xF, 0xA, 0x2, 0x3, 0x8, 0x1, 0x0, 0x7, 0x5, 0x9],
    [0x5, 0x8, 0x1, 0xD, 0xA, 0x3, 0x4, 0x2, 0xE, 0xF, 0xC, 0x7, 0x6, 0x0, 0x9, 0xB],
    [0x7, 0xD, 0xA, 0x1, 0x0, 0x8, 0x9, 0xF, 0xE, 0x4, 0x6, 0xC, 0xB, 0x2, 0x5, 0x3],
    [0x6, 0xC, 0x7, 0x1, 0x5, 0xF, 0xD, 0x8, 0x4, 0xA, 0x9, 0xE, 0x0, 0x3, 0xB, 0x2],
    [0x4, 0xB, 0xA, 0x0, 0x7, 0x2, 0x1, 0xD, 0x3, 0x6, 0x8, 0x5, 0x9, 0xC, 0xF, 0xE],
    [0xD, 0xB, 0x4, 0x1, 0x3, 0xF, 0x5, 0x9, 0x0, 0xA, 0xE, 0x7, 0x6, 0x8, 0x2, 0xC],
    [0x1, 0xF, 0xD, 0x0, 0x5, 0x7, 0xA, 0x4, 0x9, 0x2, 0x3, 0xE, 0x6, 0xB, 0x8, 0xC]
  ]

  function Box(i: nat, n: Nib): Nib
    requires i < 8
  {
    BOXES[i][n as int]
  }

  function Nibble(x: Word, i: nat): Nib
    requires i < 8
  {
    if i == 0 then x & 0xF else if i == 1 then (x >> 4) & 0xF else if i == 2 then (x >> 8) & 0xF
    else if i == 3 then (x >> 12) & 0xF else if i == 4 then (x >> 16) & 0xF else if i == 5 then (x >> 20) & 0xF
    else if i == 6 then (x >> 24) & 0xF else (x >> 28) & 0xF
  }

  function OfNibbles(a: Nib, b: Nib, c: Nib, d: Nib, e: Nib, f: Nib, g: Nib, h: Nib): Word {
    a | (b << 4) | (c << 8) | (d << 12) | (e << 16) | (f << 20) | (g << 24) | (h << 28)
  }

  function Substituted(x: Word): Word {
    OfNibbles(Box(0, Nibble(x, 0)), Box(1, Nibble(x, 1)), Box(2, Nibble(x, 2)), Box(3, Nibble(x, 3)),
              Box(4, Nibble(x, 4)), Box(5, Nibble(x, 5)), Box(6, Nibble(x, 6)), Box(7, Nibble(x, 7)))
  }

  /** The two registers. */
  datatype Pair = Pair(n1: Word, n2: Word)

  function Mangled(x: Word): Word { Rotl11(Substituted(x)) }

  function Cycle(n: Pair, key: Word): Pair { Pair(Xor(Mangled(Plus(n.n1, key)), n.n2), n.n1) }

  /** The key words go up three times and down once. */
  function KeyNumber(t: nat): (i: nat)
    requires t < 32
    ensures i < 8
  {
    if t < 24 then t % 8 else 31 - t
  }

  function Cycles(n: Pair, key: Eight, t: nat): Pair
    requires t <= 32
  {
    if t == 0 then n else Cycle(Cycles(n, key, t - 1), key.Words()[KeyNumber(t - 1)])
  }

  /** In the last of the 32 cycles the registers do not change places. */
  function Encrypted(block: Pair, key: Eight): Pair {
    var n := Cycles(block, key, 31);
    Pair(n.n1, Xor(Mangled(Plus(n.n1, key.x0)), n.n2))
  }

  lemma EightNibbles(a: bv32, b: bv32, c: bv32, d: bv32, e: bv32, f: bv32, g: bv32, h: bv32)
    requires a < 16 && b < 16 && c < 16 && d < 16 && e < 16 && f < 16 && g < 16 && h < 16
    ensures var x := a | (b << 4) | (c << 8) | (d << 12) | (e << 16) | (f << 20) | (g << 24) | (h << 28);
      && x & 0xF == a && (x >> 4) & 0xF == b && (x >> 8) & 0xF == c && (x >> 12) & 0xF == d
      && (x >> 16) & 0xF == e && (x >> 20) & 0xF == f && (x >> 24) & 0xF == g && (x >> 28) & 0xF == h
  {
  }

  lemma NibblesOf(a: Nib, b: Nib, c: Nib, d: Nib, e: Nib, f: Nib, g: Nib, h: Nib)
    ensures var x := OfNibbles(a, b, c, d, e, f, g, h);
      && Nibble(x, 0) == a && Nibble(x, 1) == b && Nibble(x, 2) == c && Nibble(x, 3) == d
      && Nibble(x, 4) == e && Nibble(x, 5) == f && Nibble(x, 6) == g && Nibble(x, 7) == h
  {
    EightNibbles(a, b, c, d, e, f, g, h);
  }

  /** Each box works on its own four bits. */
  lemma BoxesApart(x: Word, i: nat)
    requires i < 8
    ensures Nibble(Substituted(x), i) == Box(i, Nibble(x, i))
  {
    hide Box, Nibble, OfNibbles;
    NibblesOf(Box(0, Nibble(x, 0)), Box(1, Nibble(x, 1)), Box(2, Nibble(x, 2)), Box(3, Nibble(x, 3)),
              Box(4, Nibble(x, 4)), Box(5, Nibble(x, 5)), Box(6, Nibble(x, 6)), Box(7, Nibble(x, 7)));
  }

  /** Encryption under one key never takes two blocks to the same one. */
  lemma {:induction false} CyclesDecide(a: Pair, b: Pair, key: Eight, t: nat)
    requires t <= 32 && Cycles(a, key, t) == Cycles(b, key, t)
    ensures a == b
  {
    if t > 0 {
      var p, q, k := Cycles(a, key, t - 1), Cycles(b, key, t - 1), key.Words()[KeyNumber(t - 1)];
      assert Cycle(p, k) == Cycle(q, k);
      hide Cycles, Mangled, Xor, Plus;
      XorCancels(Mangled(Plus(p.n1, k)), p.n2, q.n2);
      CyclesDecide(a, b, key, t - 1);
    }
  }

  lemma XorCancels(a: Word, b: Word, c: Word)
    ensures Xor(a, b) == Xor(a, c) ==> b == c
  {
  }

  lemma EncryptionDecides(a: Pair, b: Pair, key: Eight)
    requires Encrypted(a, key) == Encrypted(b, key)
    ensures a == b
  {
    var p, q := Cycles(a, key, 31), Cycles(b, key, 31);
    hide Cycles, Mangled, Xor, Plus;
    XorCancels(Mangled(Plus(p.n1, key.x0)), p.n2, q.n2);
    CyclesDecide(a, b, key, 31);
  }

  /** The table of the source. */
  const K_BLOCK: seq<seq<Word>> := [
    [0x4, 0xA, 0x9, 0x2, 0xD, 0x8, 0x0, 0xE, 0x6, 0xB, 0x1, 0xC, 0x7, 0xF, 0x5, 0x3],
    [0xE, 0xB, 0x4, 0xC, 0x6, 0xD, 0xF, 0xA, 0x2, 0x3, 0x8, 0x1, 0x0, 0x7, 0x5, 0x9],
    [0x5, 0x8, 0x1, 0xD, 0xA, 0x3, 0x4, 0x2, 0xE, 0xF, 0xC, 0x7, 0x6, 0x0, 0x9, 0xB],
    [0x7, 0xD, 0xA, 0x1, 0x0, 0x8, 0x9, 0xF, 0xE, 0x4, 0x6, 0xC, 0xB, 0x2, 0x5, 0x3],
    [0x6, 0xC, 0x7, 0x1, 0x5, 0xF, 0xD, 0x8, 0x4, 0xA, 0x9, 0xE, 0x0, 0x3, 0xB, 0x2],
    [0x4, 0xB, 0xA, 0x0, 0x7, 0x2, 0x1, 0xD, 0x3, 0x6, 0x8, 0x5, 0x9, 0xC, 0xF, 0xE],
    [0xD, 0xB, 0x4, 0x1, 0x3, 0xF, 0x5, 0x9, 0x0, 0xA, 0xE, 0x7, 0x6, 0x8, 0x2, 0xC],
    [0x1, 0xF, 0xD, 0x0, 0x5, 0x7, 0xA, 0x4, 0x9, 0x2, 0x3, 0xE, 0x6, 0xB, 0x8, 0xC]
  ]

  function Looked(x: Word): Word {
    K_BLOCK[0][(x & 0xF) as int] | (K_BLOCK[1][((x >> 4) & 0xF) as int] << 4) |
    (K_BLOCK[2][((x >> 8) & 0xF) as int] << 8) | (K_BLOCK[3][((x >> 12) & 0xF) as int] << 12) |
    (K_BLOCK[4][((x >> 16) & 0xF) as int] << 16) | (K_BLOCK[5][((x >> 20) & 0xF) as int] << 20) |
    (K_BLOCK[6][((x >> 24) & 0xF) as int] << 24) | (K_BLOCK[7][((x >> 28) & 0xF) as int] << 28)
  }

  lemma SameBoxes()
    ensures K_BLOCK == BOXES
  {
  }

  lemma Looks(x: Word)
    ensures Looked(x) == Substituted(x)
  {
    SameBoxes();
    hide BOXES, K_BLOCK;
  }

  /** How the source turns a word round. */
  function Turned(x: Word): Word { (x << 11) | (x >> 21) }

  lemma Turns(x: Word)
    ensures Turned(x) == Rotl11(x)
  {
  }

  /** `P_GOST_28147_ROUND`. */
  method RoundInPlace(N: array<Word>, key: Word)
    requires N.Length == 2
    modifies N
    ensures Pair(N[0], N[1]) == Cycle(old(Pair(N[0], N[1])), key)
  {
    hide Xor, Plus, Rotl11, Turned, Substituted, Looked;
    var CM1 := Plus(N[0], key);
    Looks(CM1);
    CM1 := Looked(CM1);
    Turns(CM1);
    CM1 := Xor(Turned(CM1), N[1]);
    N[1] := N[0];
    N[0] := CM1;
  }

  lemma NextCycle(data: Pair, key: Eight, t: nat)
    requires t < 32
    ensures Cycles(data, key, t + 1) == Cycle(Cycles(data, key, t), key.Words()[KeyNumber(t)])
  {
    hide Cycle;
  }

  /** The first 24 cycles use the words of the key three times over, from the lowest on. */
  lemma NextUp(data: Pair, key: Eight, j: nat, i: nat)
    requires j < 3 && i < 8
    ensures Cycles(data, key, 8 * j + i + 1) == Cycle(Cycles(data, key, 8 * j + i), key.Words()[i])
  {
    assert KeyNumber(8 * j + i) == i;
    hide Cycle, Cycles, KeyNumber;
    NextCycle(data, key, 8 * j + i);
  }

  /** The last eight use them once more, from the highest on. */
  lemma NextDown(data: Pair, key: Eight, i: nat)
    requires i < 8
    ensures Cycles(data, key, 32 - i) == Cycle(Cycles(data, key, 31 - i), key.Words()[i])
  {
    assert KeyNumber(31 - i) == i;
    hide Cycle, Cycles, KeyNumber;
    NextCycle(data, key, 31 - i);
  }

  method RoundsUp(N: array<Word>, key: Eight, ghost data: Pair, ghost j: nat)
    requires N.Length == 2 && j < 3 && Pair(N[0], N[1]) == Cycles(data, key, 8 * j)
    modifies N
    ensures Pair(N[0], N[1]) == Cycles(data, key, 8 * j + 8)
  {
    hide *;
    NextUp(data, key, j, 0);
    RoundInPlace(N, key.Words()[0]);
    NextUp(data, key, j, 1);
    RoundInPlace(N, key.Words()[1]);
    NextUp(data, key, j, 2);
    RoundInPlace(N, key.Words()[2]);
    NextUp(data, key, j, 3);
    RoundInPlace(N, key.Words()[3]);
    NextUp(data, key, j, 4);
    RoundInPlace(N, key.Words()[4]);
    NextUp(data, key, j, 5);
    RoundInPlace(N, key.Words()[5]);
    NextUp(data, key, j, 6);
    RoundInPlace(N, key.Words()[6]);
    NextUp(data, key, j, 7);
    RoundInPlace(N, key.Words()[7]);
  }

  method RoundsDown(N: array<Word>, key: Eight, ghost data: Pair)
    requires N.Length == 2 && Pair(N[0], N[1]) == Cycles(data, key, 24)
    modifies N
    ensures Pair(N[0], N[1]) == Cycles(data, key, 32)
  {
    hide *;
    NextDown(data, key, 7);
    RoundInPlace(N, key.Words()[7]);
    NextDown(data, key, 6);
    RoundInPlace(N, key.Words()[6]);
    NextDown(data, key, 5);
    RoundInPlace(N, key.Words()[5]);
    NextDown(data, key, 4);
    RoundInPlace(N, key.Words()[4]);
    NextDown(data, key, 3);
    RoundInPlace(N, key.Words()[3]);
    NextDown(data, key, 2);
    RoundInPlace(N, key.Words()[2]);
    NextDown(data, key, 1);
    RoundInPlace(N, key.Words()[1]);
    NextDown(data, key, 0);
    RoundInPlace(N, key.Words()[0]);
  }

  lemma NoCycle(data: Pair, key: Eight)
    ensures Cycles(data, key, 0) == data
  {
  }

  /** `P_GOST_28147_E`. */
  method Encrypt(data: Pair, key: Eight) returns (out: Pair)
    ensures out == Encrypted(data, key)
  {
    hide *;
    var N := new Word[2];
    N[0], N[1] := data.n1, data.n2;
    NoCycle(data, key);
    AllRounds(N, key, data);
    LastCycle(data, key);
    out := Pair(N[1], N[0]);
  }

  method AllRounds(N: array<Word>, key: Eight, ghost data: Pair)
    requires N.Length == 2 && Pair(N[0], N[1]) == Cycles(data, key, 0)
    modifies N
    ensures Pair(N[0], N[1]) == Cycles(data, key, 32)
  {
    hide *;
    RoundsUp(N, key, data, 0);
    RoundsUp(N, key, data, 1);
    RoundsUp(N, key, data, 2);
    RoundsDown(N, key, data);
  }

  /** Changing the registers back after 32 cycles is leaving them alone in the last one. */
  lemma LastCycle(data: Pair, key: Eight)
    ensures var n := Cycles(data, key, 32); Pair(n.n2, n.n1) == Encrypted(data, key)
  {
    hide Mangled, Xor, Plus;
    assert Cycles(data, key, 32) == Cycle(Cycles(data, key, 31), key.x0);
  }

  // ----- the step function -----

  /** S: the four double words of the hash value, encrypted. */
  function Scrambled(h: Eight, m: Eight): Eight {
    var s1, s2 := Encrypted(Pair(h.x0, h.x1), Key(1, h, m)), Encrypted(Pair(h.x2, h.x3), Key(2, h, m));
    var s3, s4 := Encrypted(Pair(h.x4, h.x5), Key(3, h, m)), Encrypted(Pair(h.x6, h.x7), Key(4, h, m));
    Eight(s1.n1, s1.n2, s2.n1, s2.n2, s3.n1, s3.n2, s4.n1, s4.n2)
  }

  function FromHalves(lo: GostMixing.Half, hi: GostMixing.Half): Word { (lo as Word) | ((hi as Word) << 16) }

  function Folded(y: seq<GostMixing.Half>): Eight
    requires |y| == 16
  {
    Eight(FromHalves(y[0], y[1]), FromHalves(y[2], y[3]), FromHalves(y[4], y[5]), FromHalves(y[6], y[7]),
          FromHalves(y[8], y[9]), FromHalves(y[10], y[11]), FromHalves(y[12], y[13]), FromHalves(y[14], y[15]))
  }

  /** The step function: PSI^61 (H xor PSI (M xor PSI^12 (S))). */
  function Step(h: Eight, m: Eight): Eight {
    Folded(GostMixing.Mixed(GostMixing.Halves(h.Words()), GostMixing.Halves(m.Words()),
                            GostMixing.Halves(Scrambled(h, m).Words())))
  }

  lemma HalvesTogether(x: Word)
    ensures FromHalves(GostMixing.Lo(x), GostMixing.Hi(x)) == x
  {
    HalvesJoin(x);
  }

  lemma HalvesJoin(x: bv32)
    ensures ((x & 0xFFFF) as bv16 as bv32) | (((x >> 16) as bv16 as bv32) << 16) == x
  {
  }

  lemma FoldedHalves(w: seq<Word>)
    requires |w| == 8
    ensures Folded(GostMixing.Halves(w)).Words() == w
  {
    forall i | 0 <= i < 8
      ensures FromHalves(GostMixing.Lo(w[i]), GostMixing.Hi(w[i])) == w[i]
    {
      HalvesTogether(w[i]);
    }
    hide FromHalves, GostMixing.Lo, GostMixing.Hi;
  }

  /** `pp_crypto_hash_gost3411_process`. */
  method Process(hash: array<Word>, data: seq<Word>)
    requires hash.Length == 8 && |data| == 8
    modifies hash
    ensures hash[..] == Step(EightOf(old(hash[..])), EightOf(data)).Words()
  {
    hide Key, Encrypted, GostMixing.Halves, GostMixing.Mixed, Folded;
    var h := EightOf(hash[..]);
    var K1, K2, K3, K4 := GenerateKeys(h, EightOf(data));
    var s1 := Encrypt(Pair(h.x0, h.x1), K1);
    var s2 := Encrypt(Pair(h.x2, h.x3), K2);
    var s3 := Encrypt(Pair(h.x4, h.x5), K3);
    var s4 := Encrypt(Pair(h.x6, h.x7), K4);
    var S := Eight(s1.n1, s1.n2, s2.n1, s2.n2, s3.n1, s3.n2, s4.n1, s4.n2);
    assert S == Scrambled(h, EightOf(data));
    hide Scrambled;
    GostMixing.Mix(hash, data, S.Words());
    FoldedHalves(hash[..]);
  }
}
