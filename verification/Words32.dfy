// 32-bit words as numbers.

module Words32 {
  import opened Arithmetic

  type Word = bv32

  const TWO_32: nat := 0x1_0000_0000

  function NumberOf(w: Word): nat { w as nat }

  /** Addition modulo 2 to the 32. */
  function Plus(x: Word, y: Word): Word { x + y }

  lemma Doubled(x: bv32, y: bv32)
    requires x < 0x8000_0000 && y == x << 1
    ensures NumberOf(y) == 2 * NumberOf(x)
  {
  }

  lemma DoubledAndOne(x: bv32, y: bv32)
    requires x < 0x8000_0000 && y == (x << 1) | 1
    ensures NumberOf(y) == 2 * NumberOf(x) + 1
  {
  }

  lemma SmallWord(x: bv32)
    requires NumberOf(x) < 0x8000_0000
    ensures x < 0x8000_0000
  {
  }
  /** One binary digit more at the end. */
  function Twice(x: Word, bit: bool): Word { if bit then (x << 1) | 1 else x << 1 }

  lemma TwiceDenotes(x: Word, bit: bool)
    requires NumberOf(x) < 0x8000_0000
    ensures NumberOf(Twice(x, bit)) == 2 * NumberOf(x) + if bit then 1 else 0
  {
    hide NumberOf;
    SmallWord(x);
    if bit {
      DoubledAndOne(x, Twice(x, bit));
    } else {
      Doubled(x, Twice(x, bit));
    }
  }


  /** Every number below 2 to the 32 has its word. */
  lemma {:induction false} WordFor(n: nat) returns (x: Word)
    requires n < TWO_32
    ensures NumberOf(x) == n
  {
    if n == 0 {
      x := 0;
    } else {
      hide NumberOf, Twice;
      var y := WordFor(n / 2);
      TwiceDenotes(y, n % 2 == 1);
      x := Twice(y, n % 2 == 1);
    }
  }

  lemma EvenIs(x: bv32, h: bv32, y: bv32)
    requires x & 1 == 0 && h == x >> 1 && y == x + 1
    ensures x == h << 1 && h < 0x8000_0000 && y == (h << 1) | 1
  {
  }

  lemma OddIs(x: bv32, h: bv32)
    requires x & 1 == 1 && h == x >> 1
    ensures x == (h << 1) | 1 && h < 0x8000_0000
  {
  }

  lemma OddNext(x: bv32, h: bv32, y: bv32)
    requires x & 1 == 1 && h == x >> 1 && x != 0xFFFF_FFFF && y == x + 1
    ensures y == (h + 1) << 1
  {
  }

  lemma OddHalf(x: bv32, h: bv32, g: bv32)
    requires x & 1 == 1 && h == x >> 1 && x != 0xFFFF_FFFF && g == h + 1
    ensures g < 0x8000_0000 && h != 0xFFFF_FFFF
  {
  }

  /** Adding one, short of wrap-around. */
  lemma {:induction false} NextDenotes(x: Word)
    requires x != 0xFFFF_FFFF
    ensures NumberOf(x + 1) == NumberOf(x) + 1
    decreases NumberOf(x)
  {
    hide NumberOf;
    var h := x >> 1;
    if x & 1 == 0 {
      EvenIs(x, h, x + 1);
      Doubled(h, x);
      DoubledAndOne(h, x + 1);
    } else {
      OddIs(x, h);
      OddNext(x, h, x + 1);
      OddHalf(x, h, h + 1);
      DoubledAndOne(h, x);
      NextDenotes(h);
      Doubled(h + 1, x + 1);
    }
  }

  lemma Least(y: bv32)
    requires y != 0
    ensures y - 1 != 0xFFFF_FFFF && y - 1 + 1 == y
  {
  }

  lemma OneMore(x: bv32, y: bv32)
    ensures Plus(x, y) == Plus(x, y - 1) + 1
  {
  }

  lemma NoMore(x: bv32)
    ensures Plus(x, 0) == x && NumberOf(0) == 0 && NumberOf(x) < TWO_32
  {
  }

  lemma Wraps()
    ensures NumberOf(0xFFFF_FFFF) == TWO_32 - 1 && 0xFFFF_FFFF as bv32 + 1 == 0
  {
  }

  /** A sum of words is the sum of their numbers modulo 2 to the 32. */
  lemma {:induction false} PlusDenotes(x: Word, y: Word)
    ensures NumberOf(Plus(x, y)) == (NumberOf(x) + NumberOf(y)) % TWO_32
    decreases NumberOf(y)
  {
    hide NumberOf, Plus;
    NoMore(x);
    if y != 0 {
      var z := y - 1;
      Least(y);
      NextDenotes(z);
      PlusDenotes(x, z);
      OneMore(x, y);
      NextModulo(Plus(x, z), NumberOf(x) + NumberOf(z));
    }
  }

  lemma NextModulo(w: Word, n: nat)
    requires NumberOf(w) == n % TWO_32
    ensures NumberOf(w + 1) == (n + 1) % TWO_32
  {
    hide NumberOf;
    NoMore(w);
    if w == 0xFFFF_FFFF {
      Wraps();
      NoMore(0);
    } else {
      NextDenotes(w);
      NoMore(w + 1);
    }
  }
}
