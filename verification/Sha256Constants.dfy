/** Where the constants of FIPS 180-4 come from: roots of the first primes, as sections 4.2.2 and 5.3.3 say. */
module Sha256Constants {
  import opened Sha256

  predicate Prime(n: nat) { n > 1 && forall d | 1 < d < n :: n % d != 0 }

  const PRIMES: seq<nat> :=
      [2, 3, 5, 7, 11, 13, 17, 19]
    + [23, 29, 31, 37, 41, 43, 47, 53]
    + [59, 61, 67, 71, 73, 79, 83, 89]
    + [97, 101, 103, 107, 109, 113, 127, 131]
    + [137, 139, 149, 151, 157, 163, 167, 173]
    + [179, 181, 191, 193, 197, 199, 211, 223]
    + [227, 229, 233, 239, 241, 251, 257, 263]
    + [269, 271, 277, 281, 283, 293, 307, 311]

  // ------------------------------------------------------- the first 64 primes

  /** Not a multiple of a smaller prime, for numbers below 19 * 19. */
  predicate Sifted(n: nat) {
    && n > 1
    && (n % 2 != 0 || n == 2) && (n % 3 != 0 || n == 3) && (n % 5 != 0 || n == 5) && (n % 7 != 0 || n == 7)
    && (n % 11 != 0 || n == 11) && (n % 13 != 0 || n == 13) && (n % 17 != 0 || n == 17)
  }

  lemma SmallFactor(n: nat, d: nat)
    requires 1 < d < 19 && d < n && n % d == 0
    ensures !Sifted(n)
  {
    if d % 2 == 0 { Factor(n, d, 2); }
    else if d % 3 == 0 { Factor(n, d, 3); }
    else if d % 5 == 0 { Factor(n, d, 5); }
  }

  lemma Factor(n: nat, d: nat, f: nat)
    requires 0 < f <= d && d % f == 0 && n % d == 0
    ensures n % f == 0
  {
    var a, b := d / f, n / d;
    assert n == b * (a * f) == (b * a) * f;
    Multiple(b * a, f);
  }

  lemma Multiple(k: nat, f: nat)
    requires f > 0
    ensures k * f % f == 0
  {
    if k > 0 { Multiple(k - 1, f); OneMoreTime((k - 1) * f, f); assert k * f == (k - 1) * f + f; }
  }

  lemma OneMoreTime(x: nat, f: nat)
    requires f > 0
    ensures (x + f) % f == x % f
  {
    var q, r := x / f, x % f;
    assert x + f == (q + 1) * f + r;
    Remainder(x + f, f, q + 1, r);
  }

  lemma Remainder(x: nat, f: nat, q: nat, r: nat)
    requires r < f && x == q * f + r
    ensures x % f == r
  {
    var k, s := x / f, x % f;
    assert x == k * f + s;
    if k < q { Times(k + 1, q, f); }
    if q < k { Times(q + 1, k, f); }
  }

  lemma Times(a: nat, b: nat, f: nat)
    requires a <= b
    ensures a * f <= b * f
  {
  }

  lemma SiftedIff(n: nat)
    requires n < 361
    ensures Sifted(n) <==> Prime(n)
  {
    if Sifted(n) {
      forall d | 1 < d < n
        ensures n % d != 0
      {
        if n % d == 0 {
          hide Sifted;
          if d < 19 { SmallFactor(n, d); } else { LargeFactor(n, d); }
        }
      }
    }
  }

  /** A large factor leaves a small one. */
  lemma LargeFactor(n: nat, d: nat)
    requires n < 361 && 19 <= d < n && n % d == 0
    ensures !Sifted(n)
  {
    var e := n / d;
    assert n == e * d;
    if e >= 19 { Times(19, e, d); }
    Multiple(d, e);
    assert d * e == n;
    hide Sifted;
    SmallFactor(n, e);
  }

  /** No sifted number strictly between two. */
  predicate NoneSifted(p: nat, q: nat)
    decreases q - p
  {
    p + 1 >= q || (!Sifted(p + 1) && NoneSifted(p + 1, q))
  }

  lemma {:induction false} NoneBetween(p: nat, q: nat, n: nat)
    requires NoneSifted(p, q) && p < n < q
    ensures !Sifted(n)
    decreases q - p
  {
    hide Sifted;
    if p + 1 < n { NoneBetween(p + 1, q, n); }
  }

  /** A prime, and no other between it and the one before. */
  predicate NextPrime(p: nat, q: nat) { p < q && Prime(q) && forall n: nat | p < n < q :: !Prime(n) }

  lemma Next(p: nat, q: nat)
    requires p < q < 361 && Sifted(q) && NoneSifted(p, q)
    ensures NextPrime(p, q)
  {
    hide Prime, Sifted, NoneSifted;
    SiftedIff(q);
    forall n: nat | p < n < q
      ensures !Prime(n)
    {
      NoneBetween(p, q, n);
      SiftedIff(n);
    }
  }

  lemma Nexts0(t: nat)
    requires 1 <= t < 8
    ensures NextPrime(PRIMES[t - 1], PRIMES[t])
  {
    hide NextPrime;
    if t == 1 { Next(2, 3); }
    else if t == 2 { Next(3, 5); }
    else if t == 3 { Next(5, 7); }
    else if t == 4 { Next(7, 11); }
    else if t == 5 { Next(11, 13); }
    else if t == 6 { Next(13, 17); }
    else if t == 7 { Next(17, 19); }
  }

  lemma Nexts1(t: nat)
    requires 8 <= t < 16
    ensures NextPrime(PRIMES[t - 1], PRIMES[t])
  {
    hide NextPrime;
    if t == 8 { Next(19, 23); }
    else if t == 9 { Next(23, 29); }
    else if t == 10 { Next(29, 31); }
    else if t == 11 { Next(31, 37); }
    else if t == 12 { Next(37, 41); }
    else if t == 13 { Next(41, 43); }
    else if t == 14 { Next(43, 47); }
    else if t == 15 { Next(47, 53); }
  }

  lemma Nexts2(t: nat)
    requires 16 <= t < 24
    ensures NextPrime(PRIMES[t - 1], PRIMES[t])
  {
    hide NextPrime;
    if t == 16 { Next(53, 59); }
    else if t == 17 { Next(59, 61); }
    else if t == 18 { Next(61, 67); }
    else if t == 19 { Next(67, 71); }
    else if t == 20 { Next(71, 73); }
    else if t == 21 { Next(73, 79); }
    else if t == 22 { Next(79, 83); }
    else if t == 23 { Next(83, 89); }
  }

  lemma Nexts3(t: nat)
    requires 24 <= t < 32
    ensures NextPrime(PRIMES[t - 1], PRIMES[t])
  {
    hide NextPrime;
    if t == 24 { Next(89, 97); }
    else if t == 25 { Next(97, 101); }
    else if t == 26 { Next(101, 103); }
    else if t == 27 { Next(103, 107); }
    else if t == 28 { Next(107, 109); }
    else if t == 29 { Next(109, 113); }
    else if t == 30 { Next(113, 127); }
    else if t == 31 { Next(127, 131); }
  }

  lemma Nexts4(t: nat)
    requires 32 <= t < 40
    ensures NextPrime(PRIMES[t - 1], PRIMES[t])
  {
    hide NextPrime;
    if t == 32 { Next(131, 137); }
    else if t == 33 { Next(137, 139); }
    else if t == 34 { Next(139, 149); }
    else if t == 35 { Next(149, 151); }
    else if t == 36 { Next(151, 157); }
    else if t == 37 { Next(157, 163); }
    else if t == 38 { Next(163, 167); }
    else if t == 39 { Next(167, 173); }
  }

  lemma Nexts5(t: nat)
    requires 40 <= t < 48
    ensures NextPrime(PRIMES[t - 1], PRIMES[t])
  {
    hide NextPrime;
    if t == 40 { Next(173, 179); }
    else if t == 41 { Next(179, 181); }
    else if t == 42 { Next(181, 191); }
    else if t == 43 { Next(191, 193); }
    else if t == 44 { Next(193, 197); }
    else if t == 45 { Next(197, 199); }
    else if t == 46 { Next(199, 211); }
    else if t == 47 { Next(211, 223); }
  }

  lemma Nexts6(t: nat)
    requires 48 <= t < 56
    ensures NextPrime(PRIMES[t - 1], PRIMES[t])
  {
    hide NextPrime;
    if t == 48 { Next(223, 227); }
    else if t == 49 { Next(227, 229); }
    else if t == 50 { Next(229, 233); }
    else if t == 51 { Next(233, 239); }
    else if t == 52 { Next(239, 241); }
    else if t == 53 { Next(241, 251); }
    else if t == 54 { Next(251, 257); }
    else if t == 55 { Next(257, 263); }
  }

  lemma Nexts7(t: nat)
    requires 56 <= t < 64
    ensures NextPrime(PRIMES[t - 1], PRIMES[t])
  {
    hide NextPrime;
    if t == 56 { Next(263, 269); }
    else if t == 57 { Next(269, 271); }
    else if t == 58 { Next(271, 277); }
    else if t == 59 { Next(277, 281); }
    else if t == 60 { Next(281, 283); }
    else if t == 61 { Next(283, 293); }
    else if t == 62 { Next(293, 307); }
    else if t == 63 { Next(307, 311); }
  }

  /** The list is that of the first 64 primes. */
  lemma FirstPrimes(t: nat)
    requires 0 < t < 64
    ensures PRIMES[0] == 2 && Prime(2) && (forall n | Prime(n) :: n >= 2) && NextPrime(PRIMES[t - 1], PRIMES[t])
  {
    assert PRIMES[0] == 2;
    hide NextPrime, PRIMES;
    match t / 8
    case 0 => Nexts0(t);
    case 1 => Nexts1(t);
    case 2 => Nexts2(t);
    case 3 => Nexts3(t);
    case 4 => Nexts4(t);
    case 5 => Nexts5(t);
    case 6 => Nexts6(t);
    case _ => Nexts7(t);
  }

  // ------------------------------------------------------------------- roots

  const SCALE := 0x1_0000_0000

  /** The whole part of a cube root times 2^32. */
  predicate CubeRoot(n: nat, p: nat) {
    n * n * n <= p * 0x1_0000_0000_0000_0000_0000_0000 < (n + 1) * (n + 1) * (n + 1)
  }

  /** The whole part of a square root times 2^32. */
  predicate SquareRoot(n: nat, p: nat) { n * n <= p * 0x1_0000_0000_0000_0000 < (n + 1) * (n + 1) }

  /** The first 32 bits of the fraction of a cube root. */
  ghost predicate CubeFraction(k: Word, p: nat) { exists n: nat :: CubeRoot(n, p) && n % SCALE == k as int }

  /** The first 32 bits of the fraction of a square root. */
  ghost predicate SquareFraction(k: Word, p: nat) { exists n: nat :: SquareRoot(n, p) && n % SCALE == k as int }

  lemma Fraction(whole: nat, v: nat)
    requires v < SCALE
    ensures (whole * SCALE + v) % SCALE == v
  {
  }

  lemma Cube(whole: nat, k: Word, p: nat, v: nat)
    requires k as int == v && CubeRoot(whole * SCALE + v, p)
    ensures CubeFraction(k, p)
  {
    hide CubeRoot;
    Fraction(whole, v);
  }

  lemma Square(whole: nat, k: Word, p: nat, v: nat)
    requires k as int == v && SquareRoot(whole * SCALE + v, p)
    ensures SquareFraction(k, p)
  {
    hide SquareRoot;
    Fraction(whole, v);
  }

  lemma Cubes0(t: nat)
    requires 0 <= t < 8
    ensures CubeFraction(K[t], PRIMES[t])
  {
    if t == 0 { Cube(1, K[0], 2, 0x428A2F98); }
    else if t == 1 { Cube(1, K[1], 3, 0x71374491); }
    else if t == 2 { Cube(1, K[2], 5, 0xB5C0FBCF); }
    else if t == 3 { Cube(1, K[3], 7, 0xE9B5DBA5); }
    else if t == 4 { Cube(2, K[4], 11, 0x3956C25B); }
    else if t == 5 { Cube(2, K[5], 13, 0x59F111F1); }
    else if t == 6 { Cube(2, K[6], 17, 0x923F82A4); }
    else if t == 7 { Cube(2, K[7], 19, 0xAB1C5ED5); }
  }

  lemma Cubes1(t: nat)
    requires 8 <= t < 16
    ensures CubeFraction(K[t], PRIMES[t])
  {
    if t == 8 { Cube(2, K[8], 23, 0xD807AA98); }
    else if t == 9 { Cube(3, K[9], 29, 0x12835B01); }
    else if t == 10 { Cube(3, K[10], 31, 0x243185BE); }
    else if t == 11 { Cube(3, K[11], 37, 0x550C7DC3); }
    else if t == 12 { Cube(3, K[12], 41, 0x72BE5D74); }
    else if t == 13 { Cube(3, K[13], 43, 0x80DEB1FE); }
    else if t == 14 { Cube(3, K[14], 47, 0x9BDC06A7); }
    else if t == 15 { Cube(3, K[15], 53, 0xC19BF174); }
  }

  lemma Cubes2(t: nat)
    requires 16 <= t < 24
    ensures CubeFraction(K[t], PRIMES[t])
  {
    if t == 16 { Cube(3, K[16], 59, 0xE49B69C1); }
    else if t == 17 { Cube(3, K[17], 61, 0xEFBE4786); }
    else if t == 18 { Cube(4, K[18], 67, 0x0FC19DC6); }
    else if t == 19 { Cube(4, K[19], 71, 0x240CA1CC); }
    else if t == 20 { Cube(4, K[20], 73, 0x2DE92C6F); }
    else if t == 21 { Cube(4, K[21], 79, 0x4A7484AA); }
    else if t == 22 { Cube(4, K[22], 83, 0x5CB0A9DC); }
    else if t == 23 { Cube(4, K[23], 89, 0x76F988DA); }
  }

  lemma Cubes3(t: nat)
    requires 24 <= t < 32
    ensures CubeFraction(K[t], PRIMES[t])
  {
    if t == 24 { Cube(4, K[24], 97, 0x983E5152); }
    else if t == 25 { Cube(4, K[25], 101, 0xA831C66D); }
    else if t == 26 { Cube(4, K[26], 103, 0xB00327C8); }
    else if t == 27 { Cube(4, K[27], 107, 0xBF597FC7); }
    else if t == 28 { Cube(4, K[28], 109, 0xC6E00BF3); }
    else if t == 29 { Cube(4, K[29], 113, 0xD5A79147); }
    else if t == 30 { Cube(5, K[30], 127, 0x06CA6351); }
    else if t == 31 { Cube(5, K[31], 131, 0x14292967); }
  }

  lemma Cubes4(t: nat)
    requires 32 <= t < 40
    ensures CubeFraction(K[t], PRIMES[t])
  {
    if t == 32 { Cube(5, K[32], 137, 0x27B70A85); }
    else if t == 33 { Cube(5, K[33], 139, 0x2E1B2138); }
    else if t == 34 { Cube(5, K[34], 149, 0x4D2C6DFC); }
    else if t == 35 { Cube(5, K[35], 151, 0x53380D13); }
    else if t == 36 { Cube(5, K[36], 157, 0x650A7354); }
    else if t == 37 { Cube(5, K[37], 163, 0x766A0ABB); }
    else if t == 38 { Cube(5, K[38], 167, 0x81C2C92E); }
    else if t == 39 { Cube(5, K[39], 173, 0x92722C85); }
  }

  lemma Cubes5(t: nat)
    requires 40 <= t < 48
    ensures CubeFraction(K[t], PRIMES[t])
  {
    if t == 40 { Cube(5, K[40], 179, 0xA2BFE8A1); }
    else if t == 41 { Cube(5, K[41], 181, 0xA81A664B); }
    else if t == 42 { Cube(5, K[42], 191, 0xC24B8B70); }
    else if t == 43 { Cube(5, K[43], 193, 0xC76C51A3); }
    else if t == 44 { Cube(5, K[44], 197, 0xD192E819); }
    else if t == 45 { Cube(5, K[45], 199, 0xD6990624); }
    else if t == 46 { Cube(5, K[46], 211, 0xF40E3585); }
    else if t == 47 { Cube(6, K[47], 223, 0x106AA070); }
  }

  lemma Cubes6(t: nat)
    requires 48 <= t < 56
    ensures CubeFraction(K[t], PRIMES[t])
  {
    if t == 48 { Cube(6, K[48], 227, 0x19A4C116); }
    else if t == 49 { Cube(6, K[49], 229, 0x1E376C08); }
    else if t == 50 { Cube(6, K[50], 233, 0x2748774C); }
    else if t == 51 { Cube(6, K[51], 239, 0x34B0BCB5); }
    else if t == 52 { Cube(6, K[52], 241, 0x391C0CB3); }
    else if t == 53 { Cube(6, K[53], 251, 0x4ED8AA4A); }
    else if t == 54 { Cube(6, K[54], 257, 0x5B9CCA4F); }
    else if t == 55 { Cube(6, K[55], 263, 0x682E6FF3); }
  }

  lemma Cubes7(t: nat)
    requires 56 <= t < 64
    ensures CubeFraction(K[t], PRIMES[t])
  {
    if t == 56 { Cube(6, K[56], 269, 0x748F82EE); }
    else if t == 57 { Cube(6, K[57], 271, 0x78A5636F); }
    else if t == 58 { Cube(6, K[58], 277, 0x84C87814); }
    else if t == 59 { Cube(6, K[59], 281, 0x8CC70208); }
    else if t == 60 { Cube(6, K[60], 283, 0x90BEFFFA); }
    else if t == 61 { Cube(6, K[61], 293, 0xA4506CEB); }
    else if t == 62 { Cube(6, K[62], 307, 0xBEF9A3F7); }
    else if t == 63 { Cube(6, K[63], 311, 0xC67178F2); }
  }

  /** Main result: each constant is the first 32 bits of the fraction of the cube root of its prime. */
  lemma ConstantsAreRoots(t: nat)
    requires t < 64
    ensures CubeFraction(K[t], PRIMES[t])
  {
    hide CubeFraction, K, PRIMES;
    match t / 8
    case 0 => Cubes0(t);
    case 1 => Cubes1(t);
    case 2 => Cubes2(t);
    case 3 => Cubes3(t);
    case 4 => Cubes4(t);
    case 5 => Cubes5(t);
    case 6 => Cubes6(t);
    case _ => Cubes7(t);
  }

  /** The initial hash value likewise comes from the square roots of the first eight. */
  lemma InitialAreRoots(t: nat)
    requires t < 8
    ensures SquareFraction(Words(INITIAL)[t], PRIMES[t])
  {
    if t == 0 { Square(1, Words(INITIAL)[0], 2, 0x6A09E667); }
    else if t == 1 { Square(1, Words(INITIAL)[1], 3, 0xBB67AE85); }
    else if t == 2 { Square(2, Words(INITIAL)[2], 5, 0x3C6EF372); }
    else if t == 3 { Square(2, Words(INITIAL)[3], 7, 0xA54FF53A); }
    else if t == 4 { Square(3, Words(INITIAL)[4], 11, 0x510E527F); }
    else if t == 5 { Square(3, Words(INITIAL)[5], 13, 0x9B05688C); }
    else if t == 6 { Square(4, Words(INITIAL)[6], 17, 0x1F83D9AB); }
    else if t == 7 { Square(4, Words(INITIAL)[7], 19, 0x5BE0CD19); }
  }
}
