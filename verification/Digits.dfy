// Bytes as the digits of a number in base 256.

module Digits {
  function Digit(d: bv8): nat { d as nat }

  /** The number that bytes denote, the highest digit first. */
  function Big(b: seq<bv8>): nat {
    if b == [] then 0 else 256 * Big(b[..|b| - 1]) + Digit(b[|b| - 1])
  }

  /** The number that bytes denote, the lowest digit first. */
  function Little(b: seq<bv8>): nat {
    if b == [] then 0 else Digit(b[0]) + 256 * Little(b[1..])
  }

  function Power256(n: nat): nat { if n == 0 then 1 else 256 * Power256(n - 1) }

  lemma {:induction false} BigConcat(a: seq<bv8>, b: seq<bv8>)
    ensures Big(a + b) == Power256(|b|) * Big(a) + Big(b)
  {
    hide Digit;
    if b == [] {
      assert a + b == a;
    } else {
      var n := |b| - 1;
      assert (a + b)[..|a + b| - 1] == a + b[..n];
      BigConcat(a, b[..n]);
      Scaled(Power256(n), Big(a), Big(b[..n]));
    }
  }

  lemma Scaled(p: nat, x: nat, y: nat)
    ensures 256 * (p * x + y) == (256 * p) * x + 256 * y
  {
  }

  lemma {:induction false} LittleConcat(a: seq<bv8>, b: seq<bv8>)
    ensures Little(a + b) == Little(a) + Power256(|a|) * Little(b)
  {
    hide Digit;
    if a == [] {
      assert a + b == b;
    } else {
      assert (a + b)[1..] == a[1..] + b;
      LittleConcat(a[1..], b);
      Scaled(Power256(|a| - 1), Little(b), Little(a[1..]));
    }
  }

  /** One digit more at the end. */
  lemma BigStep(b: seq<bv8>, n: nat)
    requires n < |b|
    ensures Big(b[..n + 1]) == 256 * Big(b[..n]) + Digit(b[n])
  {
    hide Digit;
    assert b[..n + 1][..n] == b[..n];
  }

  /** Four digits more at the end of a number. */
  function Longer(n: nat, a: bv8, b: bv8, c: bv8, d: bv8): nat {
    (((n * 256 + Digit(a)) * 256 + Digit(b)) * 256 + Digit(c)) * 256 + Digit(d)
  }

  lemma BigFourMore(b: seq<bv8>, n: nat)
    requires n + 4 <= |b|
    ensures Big(b[..n + 4]) == Longer(Big(b[..n]), b[n], b[n + 1], b[n + 2], b[n + 3])
  {
    hide Big, Digit;
    BigStep(b, n);
    BigStep(b, n + 1);
    BigStep(b, n + 2);
    BigStep(b, n + 3);
  }

  lemma BigOfNothing(b: seq<bv8>)
    ensures Big(b[..0]) == 0 && b[..|b|] == b
  {
  }

  lemma BigOfEight(b: seq<bv8>)
    requires |b| == 8
    ensures Big(b) == Longer(Longer(0, b[0], b[1], b[2], b[3]), b[4], b[5], b[6], b[7])
  {
    hide *;
    BigOfNothing(b);
    BigFourMore(b, 0);
    BigFourMore(b, 4);
  }

  /** One digit more at the beginning. */
  lemma LittleStep(b: seq<bv8>, n: nat)
    requires n < |b|
    ensures Little(b[n..]) == Digit(b[n]) + 256 * Little(b[n + 1..])
  {
    hide Digit;
    assert b[n..][1..] == b[n + 1..];
  }

  lemma LittleOfFour(b: seq<bv8>)
    requires |b| == 4
    ensures Little(b) == Digit(b[0]) + 256 * (Digit(b[1]) + 256 * (Digit(b[2]) + 256 * Digit(b[3])))
  {
    assert Little(b[4..]) == 0 && b[0..] == b;
    hide Little, Digit;
    LittleStep(b, 0);
    LittleStep(b, 1);
    LittleStep(b, 2);
    LittleStep(b, 3);
  }
}
