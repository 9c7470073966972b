// 64-bit words as numbers.

module Words64 {
  import opened Arithmetic

  type Word = bv64

  const TWO_64: nat := 0x1_0000_0000_0000_0000

  function NumberOf(w: Word): nat { w as nat }

  /** Addition modulo 2 to the 64. */
  function Plus(x: Word, y: Word): Word { x + y }

  lemma Doubled(x: bv64, y: bv64)
    requires x < 0x8000_0000_0000_0000 && y == x << 1
    ensures NumberOf(y) == 2 * NumberOf(x)
  {
  }

  lemma DoubledAndOne(x: bv64, y: bv64)
    requires x < 0x8000_0000_0000_0000 && y == (x << 1) | 1
    ensures NumberOf(y) == 2 * NumberOf(x) + 1
  {
  }

  lemma SmallWord(x: bv64)
    requires NumberOf(x) < 0x8000_0000_0000_0000
    ensures x < 0x8000_0000_0000_0000
  {
  }
  /** One binary digit more at the end. */
  function Twice(x: Word, bit: bool): Word { if bit then (x << 1) | 1 else x << 1 }

  lemma TwiceDenotes(x: Word, bit: bool)
    requires NumberOf(x) < 0x8000_0000_0000_0000
    ensures NumberOf(Twice(x, bit)) == 2 * NumberOf(x) + if bit then 1 else 0
  {
    hide NumberOf;
    SmallWord(x);
    if bit {
      DoubledAndOne(x, Twice(x, bit));
    } else {
      Doubled(x, Twice(x, bit));
    }
  }


  lemma EvenIs(x: bv64, h: bv64, y: bv64)
    requires x & 1 == 0 && h == x >> 1 && y == x + 1
    ensures x == h << 1 && h < 0x8000_0000_0000_0000 && y == (h << 1) | 1
  {
  }

  lemma OddIs(x: bv64, h: bv64)
    requires x & 1 == 1 && h == x >> 1
    ensures x == (h << 1) | 1 && h < 0x8000_0000_0000_0000
  {
  }

  lemma OddNext(x: bv64, h: bv64, y: bv64)
    requires x & 1 == 1 && h == x >> 1 && x != 0xFFFF_FFFF_FFFF_FFFF && y == x + 1
    ensures y == (h + 1) << 1
  {
  }

  lemma OddHalf(x: bv64, h: bv64, g: bv64)
    requires x & 1 == 1 && h == x >> 1 && x != 0xFFFF_FFFF_FFFF_FFFF && g == h + 1
    ensures g < 0x8000_0000_0000_0000 && h != 0xFFFF_FFFF_FFFF_FFFF
  {
  }

  /** Adding one, short of wrap-around. */
  lemma {:induction false} NextDenotes(x: Word)
    requires x != 0xFFFF_FFFF_FFFF_FFFF
    ensures NumberOf(x + 1) == NumberOf(x) + 1
    decreases NumberOf(x)
  {
    hide NumberOf;
    var h := x >> 1;
    if x & 1 == 0 {
      EvenIs(x, h, x + 1);
      Doubled(h, x);
      DoubledAndOne(h, x + 1);
    } else {
      OddIs(x, h);
      OddNext(x, h, x + 1);
      OddHalf(x, h, h + 1);
      DoubledAndOne(h, x);
      NextDenotes(h);
      Doubled(h + 1, x + 1);
    }
  }

  lemma Least(y: bv64)
    requires y != 0
    ensures y - 1 != 0xFFFF_FFFF_FFFF_FFFF && y - 1 + 1 == y
  {
  }

  lemma OneMore(x: bv64, y: bv64)
    ensures Plus(x, y) == Plus(x, y - 1) + 1
  {
  }

  lemma NoMore(x: bv64)
    ensures Plus(x, 0) == x && NumberOf(0) == 0 && NumberOf(x) < TWO_64
  {
  }

  lemma Wraps()
    ensures NumberOf(0xFFFF_FFFF_FFFF_FFFF) == TWO_64 - 1 && 0xFFFF_FFFF_FFFF_FFFF as bv64 + 1 == 0
  {
  }

  /** A sum of words is the sum of their numbers modulo 2 to the 64. */
  lemma {:induction false} PlusDenotes(x: Word, y: Word)
    ensures NumberOf(Plus(x, y)) == (NumberOf(x) + NumberOf(y)) % TWO_64
    decreases NumberOf(y)
  {
    hide NumberOf, Plus;
    NoMore(x);
    if y != 0 {
      var z := y - 1;
      Least(y);
      NextDenotes(z);
      PlusDenotes(x, z);
      OneMore(x, y);
      NextModulo(Plus(x, z), NumberOf(x) + NumberOf(z));
    }
  }

  lemma NextModulo(w: Word, n: nat)
    requires NumberOf(w) == n % TWO_64
    ensures NumberOf(w + 1) == (n + 1) % TWO_64
  {
    hide NumberOf;
    NoMore(w);
    if w == 0xFFFF_FFFF_FFFF_FFFF {
      Wraps();
      NoMore(0);
    } else {
      NextDenotes(w);
      NoMore(w + 1);
    }
  }
}
