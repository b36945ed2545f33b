/** The constants and word functions of SHA-256 against what FIPS 180-4 says of them. */
module Sha256Constants {
  import opened Sha256

  // ----- roots of primes, sections 4.2.2 and 5.3.3

  /** The first 64 primes, sixteen at a time. */
  const PRIMES_0: seq<nat> := [
    2, 3, 5, 7, 11, 13, 17, 19, 23, 29, 31, 37, 41, 43, 47, 53]

  const PRIMES_1: seq<nat> := [
    59, 61, 67, 71, 73, 79, 83, 89, 97, 101, 103, 107, 109, 113, 127, 131]

  const PRIMES_2: seq<nat> := [
    137, 139, 149, 151, 157, 163, 167, 173, 179, 181, 191, 193, 197, 199, 211, 223]

  const PRIMES_3: seq<nat> := [
    227, 229, 233, 239, 241, 251, 257, 263, 269, 271, 277, 281, 283, 293, 307, 311]

  const PRIMES: seq<nat> := PRIMES_0 + PRIMES_1 + PRIMES_2 + PRIMES_3

  const TWO_TO_32 := 0x1_0000_0000

  /** The whole part of the cube root of a number below 343. */
  function WholeCubeRoot(p: nat): nat {
    if p < 8 then 1 else if p < 27 then 2 else if p < 64 then 3 else if p < 125 then 4 else if p < 216 then 5 else 6
  }

  /** w is the first 32 bits of the fractional part of the cube root of p. */
  predicate IsCubeRootFraction(w: Word, p: nat) {
    var r := WholeCubeRoot(p) * TWO_TO_32 + (w as nat);
    r * r * r <= p * TWO_TO_32 * TWO_TO_32 * TWO_TO_32 < (r + 1) * (r + 1) * (r + 1)
  }

  function WholeSquareRoot(p: nat): nat {
    if p < 4 then 1 else if p < 9 then 2 else if p < 16 then 3 else 4
  }

  /** w is the first 32 bits of the fractional part of the square root of p. */
  predicate IsSquareRootFraction(w: Word, p: nat) {
    var r := WholeSquareRoot(p) * TWO_TO_32 + (w as nat);
    r * r <= p * TWO_TO_32 * TWO_TO_32 < (r + 1) * (r + 1)
  }

  lemma InitialRoots()
    ensures |INITIAL| == 8 && forall i :: 0 <= i < 8 ==> IsSquareRootFraction(INITIAL[i], PRIMES_0[i])
  {
  }

  lemma RoundRoots0()
    ensures forall i :: 0 <= i < 8 ==> IsCubeRootFraction(ROUND_0[i], PRIMES_0[i])
  {
  }

  lemma RoundRoots8()
    ensures forall i :: 8 <= i < 16 ==> IsCubeRootFraction(ROUND_0[i], PRIMES_0[i])
  {
  }

  lemma RoundRoots16()
    ensures forall i :: 0 <= i < 8 ==> IsCubeRootFraction(ROUND_1[i], PRIMES_1[i])
  {
  }

  lemma RoundRoots24()
    ensures forall i :: 8 <= i < 16 ==> IsCubeRootFraction(ROUND_1[i], PRIMES_1[i])
  {
  }

  lemma RoundRoots32()
    ensures forall i :: 0 <= i < 8 ==> IsCubeRootFraction(ROUND_2[i], PRIMES_2[i])
  {
  }

  lemma RoundRoots40()
    ensures forall i :: 8 <= i < 16 ==> IsCubeRootFraction(ROUND_2[i], PRIMES_2[i])
  {
  }

  lemma RoundRoots48()
    ensures forall i :: 0 <= i < 8 ==> IsCubeRootFraction(ROUND_3[i], PRIMES_3[i])
  {
  }

  lemma RoundRoots56()
    ensures forall i :: 8 <= i < 16 ==> IsCubeRootFraction(ROUND_3[i], PRIMES_3[i])
  {
  }

  lemma RootAt(i: nat)
    requires i < 64
    ensures |PRIMES| == 64
    ensures RoundConstant(i) == (if i < 16 then ROUND_0[i] else if i < 32 then ROUND_1[i - 16]
                                 else if i < 48 then ROUND_2[i - 32] else ROUND_3[i - 48])
    ensures PRIMES[i] == (if i < 16 then PRIMES_0[i] else if i < 32 then PRIMES_1[i - 16]
                          else if i < 48 then PRIMES_2[i - 32] else PRIMES_3[i - 48])
  {
  }

  /** The round constants come from the cube roots of the first 64 primes. */
  lemma RoundRoots(i: nat)
    requires i < 64
    ensures IsCubeRootFraction(RoundConstant(i), PRIMES[i])
  {
    RootAt(i);
    if i < 16 {
      RoundRoots0();
      RoundRoots8();
    } else if i < 32 {
      RoundRoots16();
      RoundRoots24();
    } else if i < 48 {
      RoundRoots32();
      RoundRoots40();
    } else {
      RoundRoots48();
      RoundRoots56();
    }
  }

  // ----- the functions of section 4.1.2

  /** A rotation to the right brings in on the left what it shifts out. */
  lemma BigSigma0Is(x: Word)
    ensures BigSigma0(x) == ((x >> 2) | (x << 30)) ^ ((x >> 13) | (x << 19)) ^ ((x >> 22) | (x << 10))
  {
  }

  lemma BigSigma1Is(x: Word)
    ensures BigSigma1(x) == ((x >> 6) | (x << 26)) ^ ((x >> 11) | (x << 21)) ^ ((x >> 25) | (x << 7))
  {
  }

  lemma SmallSigma0Is(x: Word)
    ensures SmallSigma0(x) == ((x >> 7) | (x << 25)) ^ ((x >> 18) | (x << 14)) ^ (x >> 3)
  {
  }

  lemma SmallSigma1Is(x: Word)
    ensures SmallSigma1(x) == ((x >> 17) | (x << 15)) ^ ((x >> 19) | (x << 13)) ^ (x >> 10)
  {
  }

  /** x chooses bit by bit between y and z. */
  lemma ChChooses(x: Word, y: Word, z: Word)
    ensures Ch(x, y, z) & x == y & x && Ch(x, y, z) & !x == z & !x
  {
  }

  /** Where m picks bits in which two of the three agree, the third has no say. */
  lemma MajAgrees(x: Word, y: Word, z: Word, m: Word)
    ensures x & m == y & m ==> Maj(x, y, z) & m == x & m
  {
  }

  lemma MajAnyOrder(x: Word, y: Word, z: Word)
    ensures Maj(x, y, z) == Maj(y, z, x) == Maj(z, x, y)
  {
  }

  /** The sum modulo 2 to the 32, counted up one by one. */
  lemma SumCounts(x: Word, y: Word)
    ensures Sum(x, 0) == x && Sum(x, y + 1) == Sum(x, y) + 1
  {
  }

  /** The first byte is the highest. */
  lemma WordBigEndian(a: Byte, b: Byte, c: Byte, d: Byte)
    ensures var w := WordOf(a, b, c, d);
            && w >> 24 == a as Word && (w >> 16) & 0xff == b as Word && (w >> 8) & 0xff == c as Word
            && w & 0xff == d as Word
  {
  }

  // ----- lengths and digits

  /** The number that the k lowest bytes spell. */
  function LowBytes(n: nat, k: nat): nat {
    if k == 0 then 0 else LowBytes(n, k - 1) + ByteNumber(n, k - 1) * Pow256(k - 1)
  }

  lemma ByteParts(n: nat, p: nat, q: nat, r: nat, a: nat, b: nat)
    requires n == q * p + r && q == 256 * a + b
    ensures n == a * (256 * p) + (b * p + r)
  {
  }

  lemma ByteBelow(b: nat, p: nat, r: nat)
    requires b <= 255 && r < p
    ensures b * p + r < 256 * p
  {
  }

  lemma Times(a: nat, b: nat, d: nat)
    requires a < b
    ensures a * d + d <= b * d
  {
    assert (a + 1) * d <= b * d;
  }

  lemma Remainder(n: nat, q: nat, d: nat, r: nat)
    requires r < d && n == q * d + r
    ensures n % d == r
  {
    var x, y := n / d, n % d;
    assert x * d + y == n && y < d;
    if x < q {
      Times(x, q, d);
    }
    if q < x {
      Times(q, x, d);
    }
  }

  lemma NextByte(n: nat, p: nat)
    requires p > 0
    ensures n % (256 * p) == n % p + (n / p) % 256 * p
  {
    var q, r := n / p, n % p;
    ByteParts(n, p, q, r, q / 256, q % 256);
    ByteBelow(q % 256, p, r);
    Remainder(n, q / 256, 256 * p, q % 256 * p + r);
  }

  /** A number is the sum of its bytes by their weights. */
  lemma {:induction false} LowBytesAre(n: nat, k: nat)
    ensures Pow256(k) > 0 && LowBytes(n, k) == n % Pow256(k)
  {
    Pow256Positive(k);
    if k > 0 {
      Pow256Positive(k - 1);
      LowBytesAre(n, k - 1);
      NextByte(n, Pow256(k - 1));
    }
  }

  function HexValue(c: char): Word {
    match c
    case '0' => 0 case '1' => 1 case '2' => 2 case '3' => 3 case '4' => 4 case '5' => 5 case '6' => 6 case '7' => 7
    case '8' => 8 case '9' => 9 case 'a' => 10 case 'b' => 11 case 'c' => 12 case 'd' => 13 case 'e' => 14 case _ => 15
  }

  lemma DigitValue(x: Word)
    requires x <= 15
    ensures HexValue(Digit(x)) == x
  {
  }

  /** The eight digits of a word, the first the highest, spell it. */
  lemma HexWordSpells(w: Word)
    ensures |HexWord(w)| == 8
    ensures HexValue(HexWord(w)[0]) == w >> 28 && HexValue(HexWord(w)[1]) == (w >> 24) & 0xf
    ensures HexValue(HexWord(w)[2]) == (w >> 20) & 0xf && HexValue(HexWord(w)[3]) == (w >> 16) & 0xf
    ensures HexValue(HexWord(w)[4]) == (w >> 12) & 0xf && HexValue(HexWord(w)[5]) == (w >> 8) & 0xf
    ensures HexValue(HexWord(w)[6]) == (w >> 4) & 0xf && HexValue(HexWord(w)[7]) == w & 0xf
  {
    DigitValue((w >> 28) & 0xf);
    DigitValue((w >> 24) & 0xf);
    DigitValue((w >> 20) & 0xf);
    DigitValue((w >> 16) & 0xf);
    DigitValue((w >> 12) & 0xf);
    DigitValue((w >> 8) & 0xf);
    DigitValue((w >> 4) & 0xf);
    DigitValue(w & 0xf);
  }
}
