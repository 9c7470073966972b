// The 256-bit sum of plibsys/src/pcryptohash-gost3411.c, limb by limb with a carry.

module GostSum {
  import opened Arithmetic

  /** The limbs are 32-bit words. */
  const W: nat := 0x1_0000_0000

  newtype Limb = x: int | 0 <= x < 0x1_0000_0000

  /** The number that limbs denote, the lowest first. */
  function Value(x: seq<Limb>): nat {
    if x == [] then 0 else x[0] as nat + W * Value(x[1..])
  }

  function Power(n: nat): nat { if n == 0 then 1 else W * Power(n - 1) }

  /** The remainder modulo 2 to the 256. */
  function Modulo(x: nat): (r: nat)
    ensures r < Power(8)
  {
    x % Power(8)
  }

  /** One limb of the sum, which wraps around. */
  function Sum(a: Limb, b: Limb, carry: bool): Limb {
    ((a as nat + b as nat + if carry then 1 else 0) % W) as Limb
  }

  /** How the source tells that a limb wrapped around. */
  predicate CarryOut(a: Limb, b: Limb, carry: bool) { Sum(a, b, carry) < a || Sum(a, b, carry) < b }

  /** What the loop makes of the limbs. */
  function Added(a: seq<Limb>, b: seq<Limb>, carry: bool): (s: seq<Limb>)
    requires |a| == |b|
    ensures |s| == |a|
  {
    if a == [] then []
    else [Sum(a[0], b[0], carry)] + Added(a[1..], b[1..], CarryOut(a[0], b[0], carry))
  }

  /** `pp_crypto_hash_gost3411_sum_256`. */
  method Sum256(a: array<Limb>, b: seq<Limb>)
    requires a.Length == 8 && |b| == 8
    modifies a
    ensures a[..] == Added(old(a[..]), b, false)
  {
    hide Sum, Added;
    var carry := false;
    ghost var x := a[..];
    assert a[..0] + Added(x[0..], b[0..], carry) == Added(x, b, false) by {
      assert x[0..] == x && b[0..] == b;
    }
    for i := 0 to 8
      invariant a[i..] == x[i..]
      invariant a[..i] + Added(x[i..], b[i..], carry) == Added(x, b, false)
    {
      ghost var done := a[..i];
      AddedStep(done, x, b, i, carry);
      var before := a[i];
      assert before == a[i..][0] == x[i];
      a[i] := Sum(a[i], b[i], carry);
      carry := a[i] < before || a[i] < b[i];
      assert a[..i + 1] == done + [a[i]] && a[i + 1..] == x[i..][1..];
    }
    AddedNothing(x[8..], b[8..], carry);
    assert a[..8] + [] == a[..];
  }

  lemma AddedStep(done: seq<Limb>, x: seq<Limb>, b: seq<Limb>, i: nat, carry: bool)
    requires |x| == |b| && i < |x|
    ensures done + Added(x[i..], b[i..], carry) ==
      (done + [Sum(x[i], b[i], carry)]) + Added(x[i + 1..], b[i + 1..], CarryOut(x[i], b[i], carry))
  {
    assert x[i..][1..] == x[i + 1..] && b[i..][1..] == b[i + 1..];
    hide Sum, CarryOut;
  }

  lemma AddedNothing(x: seq<Limb>, b: seq<Limb>, carry: bool)
    requires x == [] && b == []
    ensures Added(x, b, carry) == []
  {
  }

  /** A limb whose carry out is lost: both limbs are all ones and a carry comes in. */
  predicate Loses(a: Limb, b: Limb, carry: bool) { a as nat == W - 1 && b as nat == W - 1 && carry }

  /** Except where it is lost, the carry is right. */
  lemma LimbAdds(a: Limb, b: Limb, carry: bool)
    ensures Sum(a, b, carry) as nat + (if CarryOut(a, b, carry) || Loses(a, b, carry) then W else 0) ==
            a as nat + b as nat + if carry then 1 else 0
    ensures !(CarryOut(a, b, carry) && Loses(a, b, carry))
  {
  }

  /** What the lost carries are worth, the one out of the highest limb left aside. */
  function Lost(a: seq<Limb>, b: seq<Limb>, carry: bool): nat
    requires |a| == |b|
  {
    if |a| <= 1 then 0
    else
      W * ((if Loses(a[0], b[0], carry) then 1 else 0) + Lost(a[1..], b[1..], CarryOut(a[0], b[0], carry)))
  }

  /** No limb but the highest loses its carry. */
  predicate KeepsCarries(a: seq<Limb>, b: seq<Limb>, carry: bool)
    requires |a| == |b|
  {
    |a| <= 1 || (!Loses(a[0], b[0], carry) && KeepsCarries(a[1..], b[1..], CarryOut(a[0], b[0], carry)))
  }

  /** The sum falls short of the true one by the lost carries, but for what goes out at the top. */
  lemma {:induction false} AddsButLost(a: seq<Limb>, b: seq<Limb>, carry: bool) returns (top: nat)
    requires |a| == |b| && 1 <= |a|
    ensures top <= 1
    ensures Value(Added(a, b, carry)) + Lost(a, b, carry) + (if top == 1 then Power(|a|) else 0) ==
            Value(a) + Value(b) + if carry then 1 else 0
  {
    LimbAdds(a[0], b[0], carry);
    var out := CarryOut(a[0], b[0], carry);
    if |a| == 1 {
      top := if out || Loses(a[0], b[0], carry) then 1 else 0;
      assert Added(a[1..], b[1..], out) == [];
      assert Power(1) == W * Power(0) == W;
    } else {
      top := AddsButLost(a[1..], b[1..], out);
    }
  }

  lemma {:induction false} LostBounds(a: seq<Limb>, b: seq<Limb>, carry: bool)
    requires |a| == |b| && 1 <= |a|
    ensures Lost(a, b, carry) + W <= Power(|a|)
    ensures Lost(a, b, carry) == 0 <==> KeepsCarries(a, b, carry)
  {
    if |a| == 1 {
      assert Power(1) == W * Power(0) == W;
    } else {
      LostBounds(a[1..], b[1..], CarryOut(a[0], b[0], carry));
    }
  }

  lemma {:induction false} PowerPositive(n: nat)
    ensures 0 < Power(n)
  {
    if n > 0 {
      PowerPositive(n - 1);
    }
  }

  lemma {:induction false} ValueBounds(x: seq<Limb>)
    ensures Value(x) < Power(|x|)
  {
    if x != [] {
      ValueBounds(x[1..]);
    }
  }

  /** The loop adds modulo 2 to the 256 exactly when no carry is lost below the highest limb. */
  lemma AddsModuloIff(a: seq<Limb>, b: seq<Limb>)
    requires |a| == |b| == 8
    ensures Value(Added(a, b, false)) == (Value(a) + Value(b)) % Power(8) <==> KeepsCarries(a, b, false)
  {
    assert 0 < W;
    hide *;
    var top := AddsButLost(a, b, false);
    LostBounds(a, b, false);
    ValueBounds(Added(a, b, false));
    ValueBounds(a);
    ValueBounds(b);
    ShortByLost(Value(Added(a, b, false)), Lost(a, b, false), top, Value(a) + Value(b), Power(8));
  }

  lemma ShortByLost(v: nat, lost: nat, top: nat, t: nat, p: nat)
    requires v + lost + (if top == 1 then p else 0) == t && top <= 1
    requires v < p && lost < p && t < 2 * p
    ensures v == t % p <==> lost == 0
  {
    if t < p {
      Remainder(t, 0, t, p);
    } else {
      Remainder(t, 1, t - p, p);
    }
  }

  function TwoOnes(): (x: seq<Limb>)
    ensures |x| == 8
  {
    [0xFFFF_FFFF, 0xFFFF_FFFF, 0, 0, 0, 0, 0, 0]
  }

  /** The condition is needed: two checksums of two limbs of all ones lose a carry. */
  lemma LosesACarry()
    ensures var x := TwoOnes(); Value(Added(x, x, false)) != Modulo(Value(x) + Value(x))
  {
    assert TwoOnes()[0] == 0xFFFF_FFFF && TwoOnes()[1] == 0xFFFF_FFFF;
    hide *;
    OnesGoWrong(TwoOnes());
  }

  lemma OnesGoWrong(x: seq<Limb>)
    requires |x| == 8 && x[0] == 0xFFFF_FFFF && x[1] == 0xFFFF_FFFF
    ensures Value(Added(x, x, false)) != Modulo(Value(x) + Value(x))
  {
    hide Value, Added, KeepsCarries, Power;
    OnesLose(x);
    AddsModuloIff(x, x);
  }

  lemma OnesLose(x: seq<Limb>)
    requires |x| == 8 && x[0] == 0xFFFF_FFFF && x[1] == 0xFFFF_FFFF
    ensures !KeepsCarries(x, x, false)
  {
    assert CarryOut(x[0], x[0], false);
    assert x[1..][0] == 0xFFFF_FFFF && Loses(x[1..][0], x[1..][0], true);
    assert !KeepsCarries(x[1..], x[1..], true);
  }

  // ----- the length -----

  /** The limbs that `p_crypto_hash_gost3411_update` adds to the length: `len` bytes as bits. */
  function LengthLimbs(len: nat): (b: seq<Limb>)
    ensures |b| == 8
  {
    [(8 * len % W) as Limb, (len / 0x2000_0000 % W) as Limb, 0, 0, 0, 0, 0, 0]
  }

  lemma ShortKeepsCarries(n: seq<Limb>, b: seq<Limb>)
    requires |n| == |b| == 8 && b[1] as nat < W - 1 && forall i :: 2 <= i < 8 ==> b[i] == 0
    ensures KeepsCarries(n, b, false)
  {
    var c := CarryOut(n[0], b[0], false);
    var d := CarryOut(n[1], b[1], c);
    ZerosKeep(n[1..][1..], b[1..][1..], d);
    assert !Loses(n[1..][0], b[1..][0], c);
  }

  /** Updates of less than 2 to the 32 bytes, and of many more, are counted exactly. */
  lemma LengthCounts(n: seq<Limb>, len: nat)
    requires |n| == 8 && len / 0x2000_0000 < W - 1
    ensures Value(Added(n, LengthLimbs(len), false)) == (Value(n) + 8 * len) % Power(8)
  {
    ShortKeepsCarries(n, LengthLimbs(len));
    LengthValue(len);
    hide *;
    AddsModuloIff(n, LengthLimbs(len));
  }

  lemma {:induction false} ZerosKeep(a: seq<Limb>, b: seq<Limb>, carry: bool)
    requires |a| == |b| && forall i :: 0 <= i < |b| ==> b[i] == 0
    ensures KeepsCarries(a, b, carry) && Value(b) == 0
  {
    if b != [] {
      ZerosKeep(a[1..], b[1..], CarryOut(a[0], b[0], carry));
    }
  }

  lemma LengthValue(len: nat)
    requires len / 0x2000_0000 < W
    ensures Value(LengthLimbs(len)) == 8 * len
  {
    var b := LengthLimbs(len);
    var low, high := 8 * len % W, len / 0x2000_0000;
    assert b[0] as nat == low && b[1] as nat == high % W == high;
    TwoWords(len);
    ZerosKeep(b[2..], b[2..], false);
    TwoLimbs(b);
  }

  lemma TwoWords(len: nat)
    ensures 8 * len == 8 * len % W + W * (len / 0x2000_0000)
  {
    Remainder(8 * len, len / 0x2000_0000, 8 * (len % 0x2000_0000), W);
  }

  lemma TwoLimbs(b: seq<Limb>)
    requires |b| == 8 && Value(b[2..]) == 0
    ensures Value(b) == b[0] as nat + W * b[1] as nat
  {
    assert b[1..][1..] == b[2..];
    assert Value(b[1..]) == b[1] as nat;
  }

  /** Limbs that count `n` bytes in bits count `n + len` after an update of less than 2 to the 32 bytes, or many
      more. */
  lemma LengthGrows(x: seq<Limb>, n: nat, len: nat)
    requires |x| == 8 && Value(x) == 8 * n % Power(8) && len / 0x2000_0000 < W - 1
    ensures Value(Added(x, LengthLimbs(len), false)) == 8 * (n + len) % Power(8)
  {
    PowerPositive(8);
    hide Added, LengthLimbs, Value, Power;
    LengthCounts(x, len);
    AddedRemainder(8 * n, 8 * len, Power(8));
  }
}
