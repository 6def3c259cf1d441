/**
  The generator of bench/util/random.h: seed := seed * 16807 mod (2^31 - 1), computed
  without a division.  The comment in the source claims that the seed cycles through
  every number in [1, 2^31 - 2]; this is proved from the multiplicative order of 16807,
  which is found by repeated squaring, and a counting argument.

  The modulus 0x7fff_ffff and the multiplier 16807 are written as literals so that the
  solver sees linear arithmetic.
*/
module RandomGen {

  /** 2^31 - 2, the number of seeds. */
  const PERIOD: nat := 0x7fff_fffe

  /** What the comment in the source says is computed. */
  function Step(s: nat): nat {
    s * 16807 % 0x7fff_ffff
  }

  predicate GoodSeed(s: nat) {
    1 <= s <= 0x7fff_fffe
  }

  class Random {
    var seed: nat   // uint32_t

    /** `s` is a uint32_t; masking with 0x7fffffff keeps its low 31 bits. */
    constructor (s: nat)
      requires s < 0x1_0000_0000
      ensures GoodSeed(seed)
      ensures GoodSeed(s % 0x8000_0000) ==> seed == s % 0x8000_0000
      ensures !GoodSeed(s % 0x8000_0000) ==> seed == 1
    {
      seed := s % 0x8000_0000;
      if s % 0x8000_0000 == 0 || s % 0x8000_0000 == 0x7fff_ffff {
        seed := 1;
      }
    }

    /** The 64-bit product, the shift, the mask, the 32-bit cast and the one conditional
        subtraction of the source; nothing is lost by the casts, for a good seed the
        result is the modular product, and the two bad seeds stay where they are. */
    method Next() returns (r: nat)
      requires seed <= 0x7fff_ffff
      modifies this
      ensures r == seed
      ensures GoodSeed(old(seed)) ==> GoodSeed(r) && r == Step(old(seed))
      ensures old(seed) == 0 ==> r == 0
      ensures old(seed) == 0x7fff_ffff ==> r == 0x7fff_ffff
    {
      FoldIsStep(seed);
      var product := seed * 16807 % 0x1_0000_0000_0000_0000;
      seed := (product / 0x8000_0000 + product % 0x8000_0000) % 0x1_0000_0000;
      if seed > 0x7fff_ffff {
        seed := seed - 0x7fff_ffff;
      }
      r := seed;
      assert r == Fold(old(seed) * 16807);
    }
  }

  /** What the body of Next makes of the product, given as a uint64_t. */
  function Fold(product: nat): nat {
    var bits := product % 0x1_0000_0000_0000_0000;
    Reduce((bits / 0x8000_0000 + bits % 0x8000_0000) % 0x1_0000_0000)
  }

  function Reduce(f: nat): nat {
    if f > 0x7fff_ffff then f - 0x7fff_ffff else f
  }

  // ----- Arithmetic modulo 2^31 - 1 -----

  lemma ModShift(a: nat, b: nat)
    ensures (a * 0x7fff_ffff + b) % 0x7fff_ffff == b % 0x7fff_ffff
  {
  }

  lemma ModMul(x: nat, y: nat)
    ensures (x % 0x7fff_ffff) * y % 0x7fff_ffff == x * y % 0x7fff_ffff
  {
    var q, r := x / 0x7fff_ffff, x % 0x7fff_ffff;
    calc {
      x * y;
    ==
      (q * 0x7fff_ffff + r) * y;
    ==
      (q * y) * 0x7fff_ffff + r * y;
    }
    ModShift(q * y, r * y);
  }

  /** The two halves of the product add up to the product, modulo 2^31 - 1, and to less
      than two moduli. */
  lemma HalvesAddUp(product: nat) returns (f: nat)
    requires product <= 16807 * 0x7fff_ffff
    ensures f == product / 0x8000_0000 + product % 0x8000_0000 < 2 * 0x7fff_ffff
    ensures f % 0x7fff_ffff == product % 0x7fff_ffff
  {
    var hi, lo := product / 0x8000_0000, product % 0x8000_0000;
    f := hi + lo;
    assert product == hi * 0x7fff_ffff + f;
    ModShift(hi, f);
  }

  /** One conditional subtraction takes a number below two moduli to its remainder, but
      leaves the modulus itself. */
  lemma ReduceIsMod(f: nat)
    requires f < 2 * 0x7fff_ffff
    ensures f != 0x7fff_ffff ==> Reduce(f) == f % 0x7fff_ffff
    ensures f == 0x7fff_ffff ==> Reduce(f) == f && f % 0x7fff_ffff == 0
  {
  }

  lemma CastsLoseNothing(product: nat, f: nat)
    requires product < 0x1_0000_0000_0000_0000
    requires f == product / 0x8000_0000 + product % 0x8000_0000 < 0x1_0000_0000
    ensures Fold(product) == Reduce(f)
  {
  }

  /** The fast form is the remainder, unless that is 0. */
  lemma FoldIsMod(product: nat)
    requires product <= 16807 * 0x7fff_ffff
    ensures product % 0x7fff_ffff != 0 ==> Fold(product) == product % 0x7fff_ffff
  {
    var f := HalvesAddUp(product);
    CastsLoseNothing(product, f);
    ReduceIsMod(f);
  }

  /** The fast form is the modular product, except that it keeps both 0 and 2^31 - 1. */
  lemma FoldIsStep(s: nat)
    requires s <= 0x7fff_ffff
    ensures GoodSeed(s) ==> Fold(s * 16807) == Step(s) && GoodSeed(Step(s))
    ensures s == 0 || s == 0x7fff_ffff ==> Fold(s * 16807) == s
  {
    if GoodSeed(s) {
      GoodFold(s, s * 16807);
    } else {
      BadFolds();
    }
  }

  lemma GoodFold(s: nat, product: nat)
    requires GoodSeed(s) && product == s * 16807
    ensures Fold(product) == Step(s) && GoodSeed(Step(s))
  {
    StepIsGood(s);
    FoldIsMod(product);
  }

  lemma BadFolds()
    ensures Fold(0) == 0 && Fold(0x7fff_ffff * 16807) == 0x7fff_ffff
  {
    CastsLoseNothing(0, 0);
    assert 0x7fff_ffff * 16807 == 16806 * 0x8000_0000 + (0x8000_0000 - 16807);
    CastsLoseNothing(0x7fff_ffff * 16807, 0x7fff_ffff);
  }

  /** 2^31 - 1 does not divide 16807 * s, so no good seed is mapped to 0. */
  lemma StepIsGood(s: nat)
    requires s <= 0x7fff_ffff
    ensures GoodSeed(s) ==> GoodSeed(Step(s))
  {
  }

  // ----- Orbits -----

  ghost predicate Follows(o: seq<nat>, i: nat)
    requires i + 1 < |o|
  {
    o[i + 1] == Step(o[i])
  }

  /** The seeds seen by repeated calls of Next. */
  ghost predicate IsOrbit(o: seq<nat>) {
    && |o| > 0
    && o[0] <= 0x7fff_fffe
    && forall i: nat :: i + 1 < |o| ==> Follows(o, i)
  }

  /** The powers of the multiplier: p[k] == 16807^k mod (2^31 - 1). */
  ghost predicate IsPowers(p: seq<nat>) {
    IsOrbit(p) && p[0] == 1
  }

  lemma {:induction false} MakeOrbit(s: nat, n: nat) returns (o: seq<nat>)
    requires s <= 0x7fff_fffe
    ensures IsOrbit(o) && |o| == n + 1 && o[0] == s
  {
    if n == 0 {
      o := [s];
    } else {
      var o' := MakeOrbit(s, n - 1);
      o := o' + [Step(o'[n - 1])];
      forall i: nat | i + 1 < |o| ensures Follows(o, i) {
        if i + 1 < |o'| { assert Follows(o', i); }
      }
    }
  }

  lemma OrbitRange(o: seq<nat>, i: nat)
    requires IsOrbit(o) && i < |o|
    ensures o[i] <= 0x7fff_fffe
  {
    if i > 0 { assert Follows(o, i - 1); }
  }

  /** j further steps multiply by the j-th power. */
  lemma {:induction false} OrbitMul(o: seq<nat>, p: seq<nat>, i: nat, j: nat)
    requires IsOrbit(o) && IsPowers(p) && i + j < |o| && j < |p|
    ensures o[i + j] == o[i] * p[j] % 0x7fff_ffff
  {
    if j == 0 {
      OrbitRange(o, i);
    } else {
      OrbitMul(o, p, i, j - 1);
      assert Follows(o, i + j - 1) && Follows(p, j - 1);
      ModMul(o[i] * p[j - 1], 16807);
      ModMul(p[j - 1] * 16807, o[i]);
      assert o[i] * p[j - 1] * 16807 == p[j - 1] * 16807 * o[i];
    }
  }

  // ----- The powers that certify the order of 16807 -----

  lemma SmallPowers(p: seq<nat>)
    requires IsPowers(p) && |p| > 16
    ensures p[0] == 1 && p[1] == 16807 && p[2] == 282475249 && p[3] == 1622650073
    ensures p[4] == 984943658 && p[5] == 1144108930 && p[6] == 470211272 && p[7] == 101027544
    ensures p[8] == 1457850878 && p[9] == 1458777923 && p[10] == 2007237709 && p[11] == 823564440
    ensures p[12] == 1115438165 && p[13] == 1784484492 && p[14] == 74243042 && p[15] == 114807987
  {
    Powers4(p, 0, 1, 16807, 282475249, 1622650073, 984943658);
    Powers4(p, 4, 984943658, 1144108930, 470211272, 101027544, 1457850878);
    Powers4(p, 8, 1457850878, 1458777923, 2007237709, 823564440, 1115438165);
    Powers4(p, 12, 1115438165, 1784484492, 74243042, 114807987, 1137522503);
  }

  lemma Powers4(p: seq<nat>, k: nat, v: nat, v1: nat, v2: nat, v3: nat, v4: nat)
    requires IsPowers(p) && k + 4 < |p| && p[k] == v
    requires v * 16807 % 0x7fff_ffff == v1 && v1 * 16807 % 0x7fff_ffff == v2
    requires v2 * 16807 % 0x7fff_ffff == v3 && v3 * 16807 % 0x7fff_ffff == v4
    ensures p[k + 1] == v1 && p[k + 2] == v2 && p[k + 3] == v3 && p[k + 4] == v4
  {
    assert Follows(p, k) && Follows(p, k + 1) && Follows(p, k + 2) && Follows(p, k + 3);
  }

  /** From the k-th power to the (16 * k + d)-th: four squarings and one multiplication. */
  lemma Rung(p: seq<nat>, k: nat, v: nat, v2: nat, v4: nat, v8: nat, v16: nat, d: nat, c: nat, w: nat)
    requires IsPowers(p) && 16 * k + d < |p| && p[k] == v && p[d] == c
    requires v * v % 0x7fff_ffff == v2 && v2 * v2 % 0x7fff_ffff == v4 && v4 * v4 % 0x7fff_ffff == v8
    requires v8 * v8 % 0x7fff_ffff == v16 && v16 * c % 0x7fff_ffff == w
    ensures p[16 * k + d] == w
  {
    OrbitMul(p, p, k, k);
    OrbitMul(p, p, 2 * k, 2 * k);
    OrbitMul(p, p, 4 * k, 4 * k);
    OrbitMul(p, p, 8 * k, 8 * k);
    OrbitMul(p, p, 16 * k, d);
  }

  lemma PowerPeriod(p: seq<nat>)
    requires IsPowers(p) && |p| > PERIOD
    ensures p[2147483646] == 1
  {
    SmallPowers(p);
    Rung(p, 7, 101027544, 74243042, 1404280278, 357571490, 1606946231, 15, 114807987, 2014119113);
    Rung(p, 127, 2014119113, 1561939997, 343077045, 248263272, 1096989447, 15, 114807987, 994734886);
    Rung(p, 2047, 994734886, 1698297624, 926738034, 1756855751, 368649247, 15, 114807987, 1079224412);
    Rung(p, 32767, 1079224412, 984924185, 574246853, 457589386, 378748167, 15, 114807987, 596864917);
    Rung(p, 524287, 596864917, 497276817, 419950471, 1550086975, 1204444672, 15, 114807987, 1043219357);
    Rung(p, 8388607, 1043219357, 142372994, 1341262094, 1958250907, 2067187534, 15, 114807987, 1098008483);
    Rung(p, 134217727, 1098008483, 1219381394, 72315446, 1617775574, 1935107576, 14, 74243042, 1);
  }

  lemma PowerOver2(p: seq<nat>)
    requires IsPowers(p) && |p| > PERIOD
    ensures p[1073741823] != 1
  {
    SmallPowers(p);
    Rung(p, 3, 1622650073, 470211272, 1115438165, 1998097157, 1899894091, 15, 114807987, 1108728549);
    Rung(p, 63, 1108728549, 1524325968, 1887638, 501848671, 1795289992, 15, 114807987, 754609818);
    Rung(p, 1023, 754609818, 878627494, 2009050749, 2071703685, 1587893215, 15, 114807987, 1181132756);
    Rung(p, 16383, 1181132756, 1101980020, 1240574072, 998581414, 963142635, 15, 114807987, 103492285);
    Rung(p, 262143, 103492285, 1055697433, 1242312909, 1264295359, 492532464, 15, 114807987, 1799481238);
    Rung(p, 4194303, 1799481238, 697064706, 225900933, 2100992093, 827792946, 15, 114807987, 797756594);
    Rung(p, 67108863, 797756594, 1946561783, 1688537117, 1824949437, 1839179627, 15, 114807987, 2147483646);
  }

  lemma PowerOver3(p: seq<nat>)
    requires IsPowers(p) && |p| > PERIOD
    ensures p[715827882] != 1
  {
    SmallPowers(p);
    Rung(p, 2, 282475249, 984943658, 1457850878, 1137522503, 1636807826, 10, 2007237709, 2110010672);
    Rung(p, 42, 2110010672, 1478446501, 304987844, 832861200, 476003622, 10, 2007237709, 1987502657);
    Rung(p, 682, 1987502657, 898003988, 401868524, 512453959, 84507850, 10, 2007237709, 99284761);
    Rung(p, 10922, 99284761, 578505488, 11294627, 1627986388, 1158865755, 10, 2007237709, 1175969859);
    Rung(p, 174762, 1175969859, 1524724550, 1299877462, 1677815163, 1877619757, 10, 2007237709, 313625057);
    Rung(p, 2796202, 313625057, 438271176, 446115504, 1638520455, 176702896, 10, 2007237709, 1252779437);
    Rung(p, 44739242, 1252779437, 1388093266, 554809434, 1027646758, 920240050, 10, 2007237709, 634005911);
  }

  lemma PowerOver7(p: seq<nat>)
    requires IsPowers(p) && |p| > PERIOD
    ensures p[306783378] != 1
  {
    SmallPowers(p);
    Rung(p, 1, 16807, 282475249, 984943658, 1457850878, 1137522503, 2, 282475249, 16531729);
    Rung(p, 18, 16531729, 704877633, 824938981, 318153057, 855007065, 4, 984943658, 338725129);
    Rung(p, 292, 338725129, 401203083, 749808928, 2110720068, 1105460498, 9, 1458777923, 184149733);
    Rung(p, 4681, 184149733, 1588280530, 1292075693, 320365114, 795457266, 2, 282475249, 713072451);
    Rung(p, 74898, 713072451, 808531276, 72714612, 821751376, 1691809704, 4, 984943658, 1994951511);
    Rung(p, 1198372, 1994951511, 2080243443, 1683044520, 1970866768, 1272582736, 9, 1458777923, 1491475262);
    Rung(p, 19173961, 1491475262, 1410082339, 1210473470, 2032255744, 1294654868, 2, 282475249, 1600955193);
  }

  lemma PowerOver11(p: seq<nat>)
    requires IsPowers(p) && |p| > PERIOD
    ensures p[195225786] != 1
  {
    SmallPowers(p);
    Rung(p, 11, 823564440, 1474833169, 1617819336, 1557810404, 784559590, 10, 2007237709, 462242385);
    Rung(p, 186, 462242385, 978719103, 1763464891, 1385869610, 1047660757, 2, 282475249, 1503614727);
    Rung(p, 2978, 1503614727, 1426595217, 1593242601, 245677251, 984865240, 14, 74243042, 2001314837);
    Rung(p, 47662, 2001314837, 1917845806, 450369632, 703814329, 723275386, 8, 1457850878, 289296328);
    Rung(p, 762600, 289296328, 1343207366, 2134136009, 2049340277, 1935649565, 11, 823564440, 1008979637);
    Rung(p, 12201611, 1008979637, 547841991, 1476938629, 2065865593, 1728334681, 10, 2007237709, 298192073);
  }

  lemma PowerOver31(p: seq<nat>)
    requires IsPowers(p) && |p| > PERIOD
    ensures p[69273666] != 1
  {
    SmallPowers(p);
    Rung(p, 4, 984943658, 1457850878, 1137522503, 1636807826, 685118024, 2, 282475249, 1060806853);
    Rung(p, 66, 1060806853, 1400285365, 175530180, 706642601, 1680351381, 1, 16807, 108218770);
    Rung(p, 1057, 108218770, 111398400, 2048666863, 480822013, 1593778648, 0, 1, 1593778648);
    Rung(p, 16912, 1593778648, 1464474750, 1535817640, 911831480, 2072488627, 8, 1457850878, 2107038118);
    Rung(p, 270600, 2107038118, 1590438532, 2141501481, 642557948, 122712502, 4, 984943658, 495975381);
    Rung(p, 4329604, 495975381, 411385676, 424739074, 205970348, 2143103993, 2, 282475249, 16384);
  }

  lemma PowerOver151(p: seq<nat>)
    requires IsPowers(p) && |p| > PERIOD
    ensures p[14221746] != 1
  {
    SmallPowers(p);
    Rung(p, 13, 1784484492, 1131570933, 1025921153, 382955828, 1104740033, 9, 1458777923, 1719533808);
    Rung(p, 217, 1719533808, 2119315080, 876554400, 444978220, 454021550, 0, 1, 454021550);
    Rung(p, 3472, 454021550, 2010792109, 2100574543, 1969511326, 199457713, 1, 16807, 63809424);
    Rung(p, 55553, 63809424, 711597894, 1876427685, 506944312, 2041767666, 11, 823564440, 1422968813);
    Rung(p, 888859, 1422968813, 1031122011, 2059074765, 758497081, 1449655222, 2, 282475249, 1013763951);
  }

  lemma PowerOver331(p: seq<nat>)
    requires IsPowers(p) && |p| > PERIOD
    ensures p[6487866] != 1
  {
    SmallPowers(p);
    Rung(p, 6, 470211272, 1115438165, 1998097157, 1899894091, 1816731566, 2, 282475249, 1807130337);
    Rung(p, 98, 1807130337, 992663534, 1603481258, 320514918, 1783848212, 15, 114807987, 182048270);
    Rung(p, 1583, 182048270, 799204591, 1592854157, 672182563, 461101996, 15, 114807987, 1349594950);
    Rung(p, 25343, 1349594950, 924100177, 1315497955, 1048814560, 1051660835, 3, 1622650073, 150479927);
    Rung(p, 405491, 150479927, 542140772, 302749254, 482696820, 1742270007, 10, 2007237709, 759513457);
  }

  // ----- The order of 16807 -----

  lemma {:induction false} OneMultiple(p: seq<nat>, k: nat, c: nat)
    requires IsPowers(p) && k * c < |p| && k < |p| && p[k] == 1
    ensures p[k * c] == 1
  {
    if c == 0 {
      assert k * c == 0;
    } else {
      assert k * c == k * (c - 1) + k;
      OneMultiple(p, k, c - 1);
      OrbitMul(p, p, k * (c - 1), k);
    }
  }

  lemma OneDifference(p: seq<nat>, j: nat, k: nat)
    requires IsPowers(p) && j <= k < |p| && p[j] == 1 && p[k] == 1
    ensures p[k - j] == 1
  {
    OrbitMul(p, p, k - j, j);
    OrbitRange(p, k - j);
  }

  /** If the (m*k)-th and the (m*q)-th power are 1 then so is the (m*(k mod q))-th. */
  lemma OneRemainder(p: seq<nat>, m: nat, k: nat, q: nat)
    requires IsPowers(p) && q > 0 && m * k < |p| && m * q < |p| && p[m * k] == 1 && p[m * q] == 1
    ensures m * (k % q) < |p| && p[m * (k % q)] == 1
  {
    var c := k / q;
    assert m * k == (m * q) * c + m * (k % q) by {
      assert k == q * c + k % q;
      assert m * (q * c + k % q) == (m * q) * c + m * (k % q);
    }
    OneMultiple(p, m * q, c);
    OneDifference(p, (m * q) * c, m * k);
  }

  /** Euclid's algorithm on exponents: a proper divisor of q works as well. */
  lemma {:induction false} OneDivisor(p: seq<nat>, m: nat, q: nat, r: nat) returns (g: nat)
    requires IsPowers(p) && 0 < r < q && m * q < |p| && m * r < |p|
    requires p[m * q] == 1 && p[m * r] == 1
    ensures 0 < g < q && q % g == 0 && m * g < |p| && p[m * g] == 1
    decreases r
  {
    if q % r == 0 {
      g := r;
    } else {
      OneRemainder(p, m, q, r);
      g := OneDivisor(p, m, q, q % r);
    }
  }

  /** q divides every exponent k with the k-th power 1, if no proper divisor g of q
      makes the (PERIOD / q * g)-th power 1. */
  lemma DividesExponent(p: seq<nat>, m: nat, q: nat, k: nat)
    requires IsPowers(p) && q > 0 && m * q < |p| && m * k < |p| && k < |p|
    requires p[m * q] == 1 && p[k] == 1
    requires forall g: nat :: 0 < g < q && q % g == 0 && m * g < |p| ==> p[m * g] != 1
    ensures k % q == 0
  {
    OneMultiple(p, k, m);
    assert k * m == m * k;
    OneRemainder(p, m, k, q);
    if k % q != 0 {
      var g := OneDivisor(p, m, q, k % q);
    }
  }

  /** A proper divisor of one of these primes is 1; of 9 it is 1 or 3. */
  lemma ProperDivisors(q: nat, g: nat)
    requires q == 2 || q == 9 || q == 7 || q == 11 || q == 31 || q == 151 || q == 331
    requires 0 < g < q && q % g == 0
    ensures g == 1 || (q == 9 && g == 3)
  {
    var h := q / g;
    assert g * h == q;
    assert h <= 18 || g <= 18;
    if h <= 18 {
      assert h in {1, 2, 3, 4, 5, 6, 7, 8, 9, 10, 11, 12, 13, 14, 15, 16, 17, 18};
    } else {
      assert g in {1, 2, 3, 4, 5, 6, 7, 8, 9, 10, 11, 12, 13, 14, 15, 16, 17, 18};
    }
  }

  /** The prime powers of PERIOD divide every exponent whose power is 1. */
  lemma ExponentFactors(p: seq<nat>, k: nat)
    requires IsPowers(p) && |p| > PERIOD * PERIOD && k <= PERIOD && p[k] == 1
    ensures k % 2 == 0 && k % 9 == 0 && k % 7 == 0 && k % 11 == 0 && k % 31 == 0 && k % 151 == 0 && k % 331 == 0
  {
    PowerPeriod(p);
    FactorOfExponent(p, 1073741823, 2, k) by { PowerOver2(p); }
    FactorOfExponent(p, 306783378, 7, k) by { PowerOver7(p); }
    FactorOfExponent(p, 195225786, 11, k) by { PowerOver11(p); }
    FactorOfExponent(p, 69273666, 31, k) by { PowerOver31(p); }
    FactorOfExponent(p, 14221746, 151, k) by { PowerOver151(p); }
    FactorOfExponent(p, 6487866, 331, k) by { PowerOver331(p); }
    NineDividesExponent(p, k);
  }

  lemma FactorOfExponent(p: seq<nat>, m: nat, q: nat, k: nat)
    requires IsPowers(p) && |p| > PERIOD * PERIOD && k <= PERIOD && m <= PERIOD && p[k] == 1
    requires q == 2 || q == 7 || q == 11 || q == 31 || q == 151 || q == 331
    requires m * q == PERIOD && p[m * q] == 1 && p[m] != 1
    ensures k % q == 0
  {
    assert m * k <= PERIOD * PERIOD;
    forall g: nat | 0 < g < q && q % g == 0 && m * g < |p| ensures p[m * g] != 1 {
      ProperDivisors(q, g);
    }
    DividesExponent(p, m, q, k);
  }

  lemma NineDividesExponent(p: seq<nat>, k: nat)
    requires IsPowers(p) && |p| > PERIOD * PERIOD && k <= PERIOD && p[k] == 1
    ensures k % 9 == 0
  {
    var m := 238609294;
    PowerPeriod(p);
    PowerOver3(p);
    forall g: nat | 0 < g < 9 && 9 % g == 0 && m * g < |p| ensures p[m * g] != 1 {
      ProperDivisors(9, g);
      if p[m] == 1 { OneMultiple(p, m, 3); }
    }
    DividesExponent(p, m, 9, k);
  }

  /** The factors are pairwise coprime, so their product divides as well. */
  lemma FactorsCombine(k: nat)
    requires k % 2 == 0 && k % 9 == 0 && k % 7 == 0 && k % 11 == 0 && k % 31 == 0 && k % 151 == 0 && k % 331 == 0
    ensures k % 0x7fff_fffe == 0
  {
    Coprime(k, 2, 9, -4, 1);
    Coprime(k, 18, 7, 2, -5);
    Coprime(k, 126, 11, -2, 23);
    Coprime(k, 1386, 31, -7, 313);
    Coprime(k, 42966, 151, 35, -9959);
    Coprime(k, 6487866, 331, 56, -1097645);
  }

  /** Bezout: if a and b divide k and x*a + y*b == 1 then a*b divides k. */
  lemma Coprime(k: nat, a: nat, b: nat, x: int, y: int)
    requires a > 0 && b > 0 && k % a == 0 && k % b == 0 && x * a + y * b == 1
    ensures k % (a * b) == 0
  {
    var c, d := k / a, k / b;
    assert k == a * c && k == b * d;
    calc {
      k;
    ==
      (x * a + y * b) * k;
    ==
      (x * a) * (b * d) + (y * b) * (a * c);
    == { Regroup(x, a, b, d); Regroup(y, b, a, c); }
      (a * b) * (x * d) + (a * b) * (y * c);
    ==
      (a * b) * (x * d + y * c);
    }
    MultipleMod(a * b, x * d + y * c);
  }

  lemma Regroup(x: int, a: nat, b: nat, d: nat)
    ensures (x * a) * (b * d) == (a * b) * (x * d) == (b * a) * (x * d)
  {
  }

  lemma MultipleMod(n: nat, c: int)
    requires n > 0 && n * c >= 0
    ensures n * c % n == 0
  {
    var q, r := n * c / n, n * c % n;
    assert n * (c - q) == r;
    assert c - q >= 1 ==> n * (c - q) >= n;
    assert c - q <= -1 ==> n * (c - q) <= 0 - n;
  }

  /** The order of 16807 is PERIOD: no smaller positive power is 1. */
  lemma Order(p: seq<nat>, k: nat)
    requires IsPowers(p) && |p| > PERIOD * PERIOD && k <= PERIOD
    ensures p[k] == 1 <==> k == 0 || k == PERIOD
  {
    PowerPeriod(p);
    if p[k] == 1 {
      ExponentFactors(p, k);
      FactorsCombine(k);
    }
  }

  // ----- The full period -----

  /** Distinct elements of [1, n], n of them, are all of [1, n]. */
  lemma Pigeonhole(o: seq<nat>, n: nat)
    requires |o| == n
    requires forall i :: 0 <= i < n ==> 1 <= o[i] <= n
    requires forall i, j :: 0 <= i < j < n ==> o[i] != o[j]
    ensures forall v :: 1 <= v <= n ==> v in o
  {
    var image := set i | 0 <= i < n :: o[i];
    var all := Range(n);
    ImageSize(o, n);
    if exists v :: 1 <= v <= n && v !in o {
      var v :| 1 <= v <= n && v !in o;
      assert image <= all - {v};
      SubsetSize(image, all - {v});
    }
  }

  lemma {:induction false} ImageSize(o: seq<nat>, k: nat)
    requires k <= |o|
    requires forall i, j :: 0 <= i < j < |o| ==> o[i] != o[j]
    ensures |set i | 0 <= i < k :: o[i]| == k
  {
    if k > 0 {
      ImageSize(o, k - 1);
      assert (set i | 0 <= i < k :: o[i]) == (set i | 0 <= i < k - 1 :: o[i]) + {o[k - 1]};
    }
  }

  /** The numbers 1 to n. */
  function Range(n: nat): (r: set<nat>)
    ensures |r| == n && forall v :: v in r <==> 1 <= v <= n
  {
    if n == 0 then {} else Range(n - 1) + {n}
  }

  lemma {:induction false} SubsetSize(a: set<nat>, b: set<nat>)
    requires a <= b
    ensures |a| <= |b|
  {
    if a != {} {
      var x :| x in a;
      SubsetSize(a - {x}, b - {x});
    }
  }

  /** Powers below PERIOD are non-zero and distinct, hence every good seed is a power. */
  lemma PowersCover(p: seq<nat>, s: nat) returns (t: nat)
    requires IsPowers(p) && |p| > PERIOD * PERIOD && GoodSeed(s)
    ensures t < PERIOD && p[t] == s
  {
    PowerPeriod(p);
    forall i: nat | i < PERIOD ensures 1 <= p[i] <= PERIOD {
      OrbitRange(p, i);
      OrbitMul(p, p, i, PERIOD - i);
    }
    forall i: nat, j: nat | i < j < PERIOD ensures p[i] != p[j] {
      if p[i] == p[j] {
        OrbitMul(p, p, i, PERIOD - j);
        OrbitMul(p, p, j, PERIOD - j);
        Order(p, i + (PERIOD - j));
      }
    }
    Pigeonhole(p[..PERIOD], PERIOD);
    assert s in p[..PERIOD];
    t :| 0 <= t < PERIOD && p[..PERIOD][t] == s;
  }

  /** From every good seed, repeated Next visits every number in [1, 2^31 - 2] exactly
      once and then returns to where it began. */
  lemma FullPeriod(o: seq<nat>)
    requires IsOrbit(o) && GoodSeed(o[0]) && |o| == PERIOD + 1
    ensures o[PERIOD] == o[0]
    ensures forall i, j :: 0 <= i < j < PERIOD ==> o[i] != o[j]
    ensures forall v :: GoodSeed(v) <==> v in o[..PERIOD]
  {
    var p := MakeOrbit(1, PERIOD * PERIOD);
    var t := PowersCover(p, o[0]);
    PowerPeriod(p);
    OrbitMul(o, p, 0, PERIOD);
    forall i: nat | i < PERIOD ensures o[i] == p[t + i] {
      OrbitMul(o, p, 0, i);
      OrbitMul(p, p, t, i);
    }
    forall i: nat, j: nat | i < j < PERIOD ensures o[i] != o[j] {
      DistinctPowers(p, t + i, t + j);
    }
    forall i: nat | i < PERIOD ensures GoodSeed(o[i]) {
      OrbitIsGood(o, i);
    }
    Pigeonhole(o[..PERIOD], PERIOD);
  }

  lemma {:induction false} OrbitIsGood(o: seq<nat>, i: nat)
    requires IsOrbit(o) && GoodSeed(o[0]) && i < |o|
    ensures GoodSeed(o[i])
  {
    if i > 0 {
      OrbitIsGood(o, i - 1);
      assert Follows(o, i - 1);
      StepIsGood(o[i - 1]);
    }
  }

  lemma DistinctPowers(p: seq<nat>, x: nat, y: nat)
    requires IsPowers(p) && |p| > PERIOD * PERIOD && x < y < 2 * PERIOD && y - x < PERIOD
    ensures p[x] != p[y]
  {
    if p[x] == p[y] {
      var z := 2 * PERIOD - y;
      PowerPeriod(p);
      OneMultiple(p, PERIOD, 2);
      OrbitMul(p, p, x, z);
      OrbitMul(p, p, y, z);
      assert p[x + z] == 1;
      OneDifference(p, PERIOD, x + z);
      Order(p, x + z - PERIOD);
    }
  }
}
