// The packed 32-bit words of the read-write locks: plibsys/src/prwlock-general.c:25-28 and
// plibsys/src/prwlock-win.c:28-35 use the same two 15-bit fields.

/** Two 15-bit counters in one word, and the numbers they stand for. */
module PackedWord {
  const LIMIT: nat := 0x7FFF

  /** The low counter: bits 0 to 14. */
  function Low(w: bv32): bv32 { w & 0x00007FFF }

  function SetLow(w: bv32, n: bv32): bv32 { (w & !0x00007FFF) | n }

  /** The high counter: bits 15 to 29. */
  function High(w: bv32): bv32 { (w & 0x3FFF8000) >> 15 }

  function SetHigh(w: bv32, n: bv32): bv32 { (w & !0x3FFF8000) | (n << 15) }

  /** Bits 30 and 31. */
  function Top(w: bv32): bv32 { w & 0xC0000000 }

  /** The number that a word denotes in binary. */
  function Number(x: bv32): nat {
    if x == 0 then 0 else 2 * Number(x >> 1) + Bit(x)
  }

  function Bit(x: bv32): nat { if x & 1 == 1 then 1 else 0 }

  function LowCount(w: bv32): nat { Number(Low(w)) }

  function HighCount(w: bv32): nat { Number(High(w)) }

  // ----- counting in binary -----

  lemma Halved(x: bv32, h: bv32)
    requires h == x >> 1
    ensures Number(x) == 2 * Number(h) + Bit(x)
  {
    assert x == 0 ==> x >> 1 == 0;
  }

  lemma NoCarry(x: bv32, y: bv32, h: bv32, g: bv32)
    requires x & 1 == 0 && y == x + 1 && h == x >> 1 && g == y >> 1
    ensures g == h && Bit(y) == 1 && Bit(x) == 0
  {
  }

  lemma Carry(x: bv32, y: bv32, h: bv32, g: bv32)
    requires x & 1 == 1 && x != 0xFFFFFFFF && y == x + 1 && h == x >> 1 && g == y >> 1
    ensures g == h + 1 && Bit(y) == 0 && Bit(x) == 1 && h != 0xFFFFFFFF && h < x
  {
  }

  /** Adding one to a word adds one to its number, short of wrap-around. */
  lemma {:induction false} NextNumber(x: bv32, y: bv32)
    requires x != 0xFFFFFFFF && y == x + 1
    ensures Number(y) == Number(x) + 1
  {
    var h, g := x >> 1, y >> 1;
    Halved(x, h);
    Halved(y, g);
    hide *;
    if x & 1 == 0 {
      NoCarry(x, y, h, g);
    } else {
      Carry(x, y, h, g);
      NextNumber(h, g);
    }
  }

  lemma LargestField()
    ensures Number(0x7FFF) == LIMIT
  {
    assert Number(0x7) == 0x7;
    assert Number(0x1F) == 0x1F;
    assert Number(0x7F) == 0x7F;
    assert Number(0x1FF) == 0x1FF;
    assert Number(0x7FF) == 0x7FF;
    assert Number(0x1FFF) == 0x1FFF;
  }

  lemma EvenHalf(x: bv32, h: bv32)
    requires x != 0 && x & 1 == 0 && h == x >> 1
    ensures h != 0 && h < x
  {
  }

  lemma {:induction false} ZeroCount(x: bv32)
    ensures x == 0 <==> Number(x) == 0
  {
    if x != 0 && x & 1 == 0 {
      EvenHalf(x, x >> 1);
      ZeroCount(x >> 1);
    }
  }

  lemma OneCount(x: bv32)
    ensures x == 1 <==> Number(x) == 1
  {
    ZeroCount(x >> 1);
    OneHalf(x, x >> 1);
  }

  lemma OneHalf(x: bv32, h: bv32)
    requires h == x >> 1
    ensures x == 1 <==> h == 0 && x & 1 == 1
  {
  }

  // ----- the fields do not interfere -----

  lemma SetLowGets(w: bv32, n: bv32)
    requires n <= 0x7FFF
    ensures Low(SetLow(w, n)) == n && High(SetLow(w, n)) == High(w) && Top(SetLow(w, n)) == Top(w)
  {
  }

  lemma Shifted(n: bv32)
    requires n <= 0x7FFF
    ensures (n << 15) >> 15 == n
  {
  }

  lemma Masked(w: bv32, n: bv32)
    requires n <= 0x7FFF
    ensures SetHigh(w, n) & 0x3FFF8000 == n << 15
  {
  }

  lemma SetHighGets(w: bv32, n: bv32)
    requires n <= 0x7FFF
    ensures High(SetHigh(w, n)) == n
  {
    Shifted(n);
    Masked(w, n);
  }

  lemma SetHighKeeps(w: bv32, n: bv32)
    requires n <= 0x7FFF
    ensures Low(SetHigh(w, n)) == Low(w) && Top(SetHigh(w, n)) == Top(w)
  {
  }

  lemma FieldBounds(w: bv32)
    ensures Low(w) <= 0x7FFF && High(w) <= 0x7FFF
  {
  }

  /** A word whose top bits are clear is zero exactly when both counters are. */
  lemma ZeroWord(w: bv32)
    requires Top(w) == 0
    ensures w == 0 <==> LowCount(w) == 0 && HighCount(w) == 0
  {
    assert w == 0 <==> Low(w) == 0 && High(w) == 0;
    ZeroCount(Low(w));
    ZeroCount(High(w));
  }

  /** `n` is one more than `m`, and both fit the field. */
  lemma Bumped(m: bv32)
    requires Number(m) < LIMIT && m <= 0x7FFF
    ensures m + 1 <= 0x7FFF && Number(m + 1) == Number(m) + 1
  {
    LargestField();
    assert m != 0x7FFF;
    NextNumber(m, m + 1);
  }

  lemma Dropped(m: bv32)
    requires 0 < Number(m) && m <= 0x7FFF
    ensures m - 1 <= 0x7FFF && Number(m - 1) == Number(m) - 1
  {
    ZeroCount(m);
    NextNumber(m - 1, m);
  }

  /** Counting one more in the low field changes nothing else. */
  lemma LowRaised(w: bv32)
    requires LowCount(w) < LIMIT
    ensures var v := SetLow(w, Low(w) + 1);
      LowCount(v) == LowCount(w) + 1 && High(v) == High(w) && Top(v) == Top(w)
  {
    FieldBounds(w);
    Bumped(Low(w));
    SetLowGets(w, Low(w) + 1);
  }

  lemma LowLowered(w: bv32)
    requires 0 < LowCount(w)
    ensures var v := SetLow(w, Low(w) - 1);
      LowCount(v) == LowCount(w) - 1 && High(v) == High(w) && Top(v) == Top(w)
  {
    FieldBounds(w);
    Dropped(Low(w));
    SetLowGets(w, Low(w) - 1);
  }

  lemma HighRaised(w: bv32)
    requires HighCount(w) < LIMIT
    ensures var v := SetHigh(w, High(w) + 1);
      HighCount(v) == HighCount(w) + 1 && Low(v) == Low(w) && Top(v) == Top(w)
  {
    FieldBounds(w);
    Bumped(High(w));
    SetHighGets(w, High(w) + 1);
    SetHighKeeps(w, High(w) + 1);
  }

  lemma HighLowered(w: bv32)
    requires 0 < HighCount(w)
    ensures var v := SetHigh(w, High(w) - 1);
      HighCount(v) == HighCount(w) - 1 && Low(v) == Low(w) && Top(v) == Top(w)
  {
    FieldBounds(w);
    Dropped(High(w));
    SetHighGets(w, High(w) - 1);
    SetHighKeeps(w, High(w) - 1);
  }
}
