// Where the constants of FIPS 180-4 come from (sections 4.2.1 to 4.2.3, 5.3.4 and 5.3.5): roots of prime numbers.

module ShaConstants {
  import opened Arithmetic
  import opened Words64
  import N = Words32
  import L = Sha512Standard
  import M = Sha256
  import S = Sha1

  /** The first eighty prime numbers, four in a row. */
  function Primes(i: nat): (p: seq<nat>)
    requires i < 20
    ensures |p| == 4
  {
    if i == 0 then [2, 3, 5, 7]
    else if i == 1 then [11, 13, 17, 19]
    else if i == 2 then [23, 29, 31, 37]
    else if i == 3 then [41, 43, 47, 53]
    else if i == 4 then [59, 61, 67, 71]
    else if i == 5 then [73, 79, 83, 89]
    else if i == 6 then [97, 101, 103, 107]
    else if i == 7 then [109, 113, 127, 131]
    else if i == 8 then [137, 139, 149, 151]
    else if i == 9 then [157, 163, 167, 173]
    else if i == 10 then [179, 181, 191, 193]
    else if i == 11 then [197, 199, 211, 223]
    else if i == 12 then [227, 229, 233, 239]
    else if i == 13 then [241, 251, 257, 263]
    else if i == 14 then [269, 271, 277, 281]
    else if i == 15 then [283, 293, 307, 311]
    else if i == 16 then [313, 317, 331, 337]
    else if i == 17 then [347, 349, 353, 359]
    else if i == 18 then [367, 373, 379, 383]
    else [389, 397, 401, 409]
  }

  function Prime(t: nat): nat
    requires t < 80
  {
    Primes(t / 4)[t % 4]
  }

  const TWO_192: nat := 0x1000000000000000000000000000000000000000000000000

  /** `r` is the cube root of `p` with 64 bits after the point. */
  predicate CubeRoot(p: nat, r: nat) { r * r * r <= p * TWO_192 < (r + 1) * (r + 1) * (r + 1) }

  /** Constant `t` of SHA-512 is the fraction of the cube root of prime `t`. */
  ghost predicate Fraction(t: nat)
    requires t < 80
  {
    exists r: nat :: CubeRoot(Prime(t), r) && NumberOf(L.Constant(t)) == r % TWO_64
  }

  lemma Root(t: nat, r: nat)
    requires t < 80 && CubeRoot(Prime(t), r) && NumberOf(L.Constant(t)) == r % TWO_64
    ensures Fraction(t)
  {
    hide CubeRoot, NumberOf, L.Constant, Prime;
  }

  /** Four primes and the roots of them. */
  lemma Roots(i: nat, p: seq<nat>, a: nat, b: nat, c: nat, d: nat)
    requires i < 20 && Primes(i) == p
    requires CubeRoot(p[0], a) && CubeRoot(p[1], b) && CubeRoot(p[2], c) && CubeRoot(p[3], d)
    requires var k := L.Row(i);
      && NumberOf(k[0]) == a % TWO_64 && NumberOf(k[1]) == b % TWO_64
      && NumberOf(k[2]) == c % TWO_64 && NumberOf(k[3]) == d % TWO_64
    ensures forall t :: 4 * i <= t < 4 * i + 4 ==> Fraction(t)
  {
    hide CubeRoot, NumberOf, Fraction, L.Row, Primes;
    Remainder(4 * i, i, 0, 4);
    Remainder(4 * i + 1, i, 1, 4);
    Remainder(4 * i + 2, i, 2, 4);
    Remainder(4 * i + 3, i, 3, 4);
    Root(4 * i, a);
    Root(4 * i + 1, b);
    Root(4 * i + 2, c);
    Root(4 * i + 3, d);
  }

  lemma Roots0()
    ensures forall t :: 0 <= t < 8 ==> Fraction(t)
  {
    hide Fraction;
    Roots(0, [2, 3, 5, 7],
          0x1428A2F98D728AE22, 0x17137449123EF65CD,
          0x1B5C0FBCFEC4D3B2F, 0x1E9B5DBA58189DBBC);
    Roots(1, [11, 13, 17, 19],
          0x23956C25BF348B538, 0x259F111F1B605D019,
          0x2923F82A4AF194F9B, 0x2AB1C5ED5DA6D8118);
  }

  lemma Roots1()
    ensures forall t :: 8 <= t < 16 ==> Fraction(t)
  {
    hide Fraction;
    Roots(2, [23, 29, 31, 37],
          0x2D807AA98A3030242, 0x312835B0145706FBE,
          0x3243185BE4EE4B28C, 0x3550C7DC3D5FFB4E2);
    Roots(3, [41, 43, 47, 53],
          0x372BE5D74F27B896F, 0x380DEB1FE3B1696B1,
          0x39BDC06A725C71235, 0x3C19BF174CF692694);
  }

  lemma Roots2()
    ensures forall t :: 16 <= t < 24 ==> Fraction(t)
  {
    hide Fraction;
    Roots(4, [59, 61, 67, 71],
          0x3E49B69C19EF14AD2, 0x3EFBE4786384F25E3,
          0x40FC19DC68B8CD5B5, 0x4240CA1CC77AC9C65);
    Roots(5, [73, 79, 83, 89],
          0x42DE92C6F592B0275, 0x44A7484AA6EA6E483,
          0x45CB0A9DCBD41FBD4, 0x476F988DA831153B5);
  }

  lemma Roots3()
    ensures forall t :: 24 <= t < 32 ==> Fraction(t)
  {
    hide Fraction;
    Roots(6, [97, 101, 103, 107],
          0x4983E5152EE66DFAB, 0x4A831C66D2DB43210,
          0x4B00327C898FB213F, 0x4BF597FC7BEEF0EE4);
    Roots(7, [109, 113, 127, 131],
          0x4C6E00BF33DA88FC2, 0x4D5A79147930AA725,
          0x506CA6351E003826F, 0x5142929670A0E6E70);
  }

  lemma Roots4()
    ensures forall t :: 32 <= t < 40 ==> Fraction(t)
  {
    hide Fraction;
    Roots(8, [137, 139, 149, 151],
          0x527B70A8546D22FFC, 0x52E1B21385C26C926,
          0x54D2C6DFC5AC42AED, 0x553380D139D95B3DF);
    Roots(9, [157, 163, 167, 173],
          0x5650A73548BAF63DE, 0x5766A0ABB3C77B2A8,
          0x581C2C92E47EDAEE6, 0x592722C851482353B);
  }

  lemma Roots5()
    ensures forall t :: 40 <= t < 48 ==> Fraction(t)
  {
    hide Fraction;
    Roots(10, [179, 181, 191, 193],
          0x5A2BFE8A14CF10364, 0x5A81A664BBC423001,
          0x5C24B8B70D0F89791, 0x5C76C51A30654BE30);
    Roots(11, [197, 199, 211, 223],
          0x5D192E819D6EF5218, 0x5D69906245565A910,
          0x5F40E35855771202A, 0x6106AA07032BBD1B8);
  }

  lemma Roots6()
    ensures forall t :: 48 <= t < 56 ==> Fraction(t)
  {
    hide Fraction;
    Roots(12, [227, 229, 233, 239],
          0x619A4C116B8D2D0C8, 0x61E376C085141AB53,
          0x62748774CDF8EEB99, 0x634B0BCB5E19B48A8);
    Roots(13, [241, 251, 257, 263],
          0x6391C0CB3C5C95A63, 0x64ED8AA4AE3418ACB,
          0x65B9CCA4F7763E373, 0x6682E6FF3D6B2B8A3);
  }

  lemma Roots7()
    ensures forall t :: 56 <= t < 64 ==> Fraction(t)
  {
    hide Fraction;
    Roots(14, [269, 271, 277, 281],
          0x6748F82EE5DEFB2FC, 0x678A5636F43172F60,
          0x684C87814A1F0AB72, 0x68CC702081A6439EC);
    Roots(15, [283, 293, 307, 311],
          0x690BEFFFA23631E28, 0x6A4506CEBDE82BDE9,
          0x6BEF9A3F7B2C67915, 0x6C67178F2E372532B);
  }

  lemma Roots8()
    ensures forall t :: 64 <= t < 72 ==> Fraction(t)
  {
    hide Fraction;
    Roots(16, [313, 317, 331, 337],
          0x6CA273ECEEA26619C, 0x6D186B8C721C0C207,
          0x6EADA7DD6CDE0EB1E, 0x6F57D4F7FEE6ED178);
    Roots(17, [347, 349, 353, 359],
          0x706F067AA72176FBA, 0x70A637DC5A2C898A6,
          0x7113F9804BEF90DAE, 0x71B710B35131C471B);
  }

  lemma Roots9()
    ensures forall t :: 72 <= t < 80 ==> Fraction(t)
  {
    hide Fraction;
    Roots(18, [367, 373, 379, 383],
          0x728DB77F523047D84, 0x732CAAB7B40C72493,
          0x73C9EBE0A15C9BEBC, 0x7431D67C49C100D4C);
    Roots(19, [389, 397, 401, 409],
          0x74CC5D4BECB3E42B6, 0x7597F299CFC657E2A,
          0x75FCB6FAB3AD6FAEC, 0x76C44198C4A475817);
  }

  /** Every constant of SHA-512 is the first 64 bits of the fraction of a cube root, section 4.2.3. */
  lemma Fractions(t: nat)
    requires t < 80
    ensures Fraction(t)
  {
    hide Fraction;
    Roots0();
    Roots1();
    Roots2();
    Roots3();
    Roots4();
    Roots5();
    Roots6();
    Roots7();
    Roots8();
    Roots9();
  }

  // ----- SHA-256, section 4.2.2 -----

  function Upper(x: Word): N.Word { (x >> 32) as N.Word }

  lemma UpperRow(i: nat)
    requires i < 16
    requires var k, l := M.Row(i), L.Row(i);
      k[0] == Upper(l[0]) && k[1] == Upper(l[1]) && k[2] == Upper(l[2]) && k[3] == Upper(l[3])
    ensures forall t :: 4 * i <= t < 4 * i + 4 ==> M.Constant(t) == Upper(L.Constant(t))
  {
    hide Upper, L.Row, M.Row;
    Remainder(4 * i, i, 0, 4);
    Remainder(4 * i + 1, i, 1, 4);
    Remainder(4 * i + 2, i, 2, 4);
    Remainder(4 * i + 3, i, 3, 4);
  }

  lemma Uppers0()
    ensures forall t :: 0 <= t < 16 ==> M.Constant(t) == Upper(L.Constant(t))
  {
    hide M.Constant, L.Constant;
    UpperRow(0);
    UpperRow(1);
    UpperRow(2);
    UpperRow(3);
  }

  lemma Uppers1()
    ensures forall t :: 16 <= t < 32 ==> M.Constant(t) == Upper(L.Constant(t))
  {
    hide M.Constant, L.Constant;
    UpperRow(4);
    UpperRow(5);
    UpperRow(6);
    UpperRow(7);
  }

  lemma Uppers2()
    ensures forall t :: 32 <= t < 48 ==> M.Constant(t) == Upper(L.Constant(t))
  {
    hide M.Constant, L.Constant;
    UpperRow(8);
    UpperRow(9);
    UpperRow(10);
    UpperRow(11);
  }

  lemma Uppers3()
    ensures forall t :: 48 <= t < 64 ==> M.Constant(t) == Upper(L.Constant(t))
  {
    hide M.Constant, L.Constant;
    UpperRow(12);
    UpperRow(13);
    UpperRow(14);
    UpperRow(15);
  }

  /** The constants of SHA-256 are the first 32 bits of the same fractions. */
  lemma UpperHalves(t: nat)
    requires t < 64
    ensures M.Constant(t) == Upper(L.Constant(t))
  {
    hide M.Constant, L.Constant, Upper;
    Uppers0();
    Uppers1();
    Uppers2();
    Uppers3();
  }

  // ----- initial hash values, sections 5.3.4 and 5.3.5 -----

  const TWO_128: nat := 0x100000000000000000000000000000000

  /** `r` is the square root of `n`, cut to a whole number. */
  predicate SquareRoot(n: nat, r: nat) { r * r <= n < (r + 1) * (r + 1) }

  /** Word `w` is the first 64 bits of the fraction of the square root of prime `t`. */
  ghost predicate RootFraction(t: nat, w: Word)
    requires t < 80
  {
    exists r: nat :: SquareRoot(Prime(t) * TWO_128, r) && NumberOf(w) == r % TWO_64
  }

  lemma InitialRoot(t: nat, n: nat, w: Word, r: nat)
    requires t < 80 && n == Prime(t) * TWO_128 && SquareRoot(n, r) && NumberOf(w) == r % TWO_64
    ensures RootFraction(t, w)
  {
    hide SquareRoot, NumberOf, Prime;
  }

  lemma FirstPrimes()
    ensures Prime(0) == 2 && Prime(1) == 3 && Prime(2) == 5 && Prime(3) == 7
    ensures Prime(4) == 11 && Prime(5) == 13 && Prime(6) == 17 && Prime(7) == 19
    ensures Prime(8) == 23 && Prime(9) == 29 && Prime(10) == 31 && Prime(11) == 37
    ensures Prime(12) == 41 && Prime(13) == 43 && Prime(14) == 47 && Prime(15) == 53
  {
  }

  /** The hash value that SHA-512 starts from comes from the first eight primes. */
  lemma Initial512(t: nat)
    requires t < 8
    ensures RootFraction(t, L.INITIAL_512[t])
  {
    FirstPrimes();
    hide RootFraction, Prime;
    if t == 0 {
      InitialRoot(0, 2 * TWO_128, L.INITIAL_512[0], 0x16A09E667F3BCC908);
    } else if t == 1 {
      InitialRoot(1, 3 * TWO_128, L.INITIAL_512[1], 0x1BB67AE8584CAA73B);
    } else if t == 2 {
      InitialRoot(2, 5 * TWO_128, L.INITIAL_512[2], 0x23C6EF372FE94F82B);
    } else if t == 3 {
      InitialRoot(3, 7 * TWO_128, L.INITIAL_512[3], 0x2A54FF53A5F1D36F1);
    } else if t == 4 {
      InitialRoot(4, 11 * TWO_128, L.INITIAL_512[4], 0x3510E527FADE682D1);
    } else if t == 5 {
      InitialRoot(5, 13 * TWO_128, L.INITIAL_512[5], 0x39B05688C2B3E6C1F);
    } else if t == 6 {
      InitialRoot(6, 17 * TWO_128, L.INITIAL_512[6], 0x41F83D9ABFB41BD6B);
    } else {
      InitialRoot(7, 19 * TWO_128, L.INITIAL_512[7], 0x45BE0CD19137E2179);
    }
  }

  /** The one of SHA-384 comes from the next eight. */
  lemma Initial384(t: nat)
    requires t < 8
    ensures RootFraction(8 + t, L.INITIAL_384[t])
  {
    FirstPrimes();
    hide RootFraction, Prime;
    if t == 0 {
      InitialRoot(8, 23 * TWO_128, L.INITIAL_384[0], 0x4CBBB9D5DC1059ED8);
    } else if t == 1 {
      InitialRoot(9, 29 * TWO_128, L.INITIAL_384[1], 0x5629A292A367CD507);
    } else if t == 2 {
      InitialRoot(10, 31 * TWO_128, L.INITIAL_384[2], 0x59159015A3070DD17);
    } else if t == 3 {
      InitialRoot(11, 37 * TWO_128, L.INITIAL_384[3], 0x6152FECD8F70E5939);
    } else if t == 4 {
      InitialRoot(12, 41 * TWO_128, L.INITIAL_384[4], 0x667332667FFC00B31);
    } else if t == 5 {
      InitialRoot(13, 43 * TWO_128, L.INITIAL_384[5], 0x68EB44A8768581511);
    } else if t == 6 {
      InitialRoot(14, 47 * TWO_128, L.INITIAL_384[6], 0x6DB0C2E0D64F98FA7);
    } else {
      InitialRoot(15, 53 * TWO_128, L.INITIAL_384[7], 0x747B5481DBEFA4FA4);
    }
  }

  // ----- SHA-1, section 4.2.1 -----

  const TWO_60: nat := 0x1000000000000000

  /** The four constants of SHA-1 are the square roots of 2, 3, 5 and 10 with 30 bits after the point. */
  lemma RootsOfSha1(t: nat)
    requires t < 80
    ensures SquareRoot((if t < 20 then 2 else if t < 40 then 3 else if t < 60 then 5 else 10) * TWO_60,
                       N.NumberOf(S.Constant(t)))
  {
  }
}
