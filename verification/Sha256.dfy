/** SHA-256 as FIPS 180-4 states it on the padded message, and the streaming computation that never builds that
    message. */
module Sha256 {
  type Word = bv32
  type Byte = bv8

  /** The round constants, sixteen at a time. */
  const ROUND_0: seq<Word> := [
    0x428a2f98, 0x71374491, 0xb5c0fbcf, 0xe9b5dba5, 0x3956c25b, 0x59f111f1, 0x923f82a4, 0xab1c5ed5,
    0xd807aa98, 0x12835b01, 0x243185be, 0x550c7dc3, 0x72be5d74, 0x80deb1fe, 0x9bdc06a7, 0xc19bf174]

  const ROUND_1: seq<Word> := [
    0xe49b69c1, 0xefbe4786, 0x0fc19dc6, 0x240ca1cc, 0x2de92c6f, 0x4a7484aa, 0x5cb0a9dc, 0x76f988da,
    0x983e5152, 0xa831c66d, 0xb00327c8, 0xbf597fc7, 0xc6e00bf3, 0xd5a79147, 0x06ca6351, 0x14292967]

  const ROUND_2: seq<Word> := [
    0x27b70a85, 0x2e1b2138, 0x4d2c6dfc, 0x53380d13, 0x650a7354, 0x766a0abb, 0x81c2c92e, 0x92722c85,
    0xa2bfe8a1, 0xa81a664b, 0xc24b8b70, 0xc76c51a3, 0xd192e819, 0xd6990624, 0xf40e3585, 0x106aa070]

  const ROUND_3: seq<Word> := [
    0x19a4c116, 0x1e376c08, 0x2748774c, 0x34b0bcb5, 0x391c0cb3, 0x4ed8aa4a, 0x5b9cca4f, 0x682e6ff3,
    0x748f82ee, 0x78a5636f, 0x84c87814, 0x8cc70208, 0x90befffa, 0xa4506ceb, 0xbef9a3f7, 0xc67178f2]

  const ROUND: seq<Word> := ROUND_0 + ROUND_1 + ROUND_2 + ROUND_3

  const INITIAL: seq<Word> := [
    0x6a09e667, 0xbb67ae85, 0x3c6ef372, 0xa54ff53a, 0x510e527f, 0x9b05688c, 0x1f83d9ab, 0x5be0cd19]

  /** The number of rounds, and of words in a schedule. */
  function Steps(): (n: nat)
    ensures n == 64
  {
    64
  }

  function RoundConstant(i: nat): Word
    requires i < 64
  {
    assert |ROUND| == 64;
    ROUND[i]
  }

  // ----- the functions of section 4.1.2

  function BigSigma0(x: Word): Word { x.RotateRight(2) ^ x.RotateRight(13) ^ x.RotateRight(22) }

  function BigSigma1(x: Word): Word { x.RotateRight(6) ^ x.RotateRight(11) ^ x.RotateRight(25) }

  function SmallSigma0(x: Word): Word { x.RotateRight(7) ^ x.RotateRight(18) ^ (x >> 3) }

  function SmallSigma1(x: Word): Word { x.RotateRight(17) ^ x.RotateRight(19) ^ (x >> 10) }

  function Ch(x: Word, y: Word, z: Word): Word { (x & y) ^ (!x & z) }

  function Maj(x: Word, y: Word, z: Word): Word { (x & y) ^ (x & z) ^ (y & z) }

  function Sum(x: Word, y: Word): Word { x + y }

  // ----- one block, section 6.2.2

  function WordOf(b0: Byte, b1: Byte, b2: Byte, b3: Byte): Word {
    ((b0 as Word) << 24) | ((b1 as Word) << 16) | ((b2 as Word) << 8) | (b3 as Word)
  }

  function BlockWord(block: seq<Byte>, i: nat): Word
    requires |block| == 64 && i < 16
  {
    WordOf(block[4 * i], block[4 * i + 1], block[4 * i + 2], block[4 * i + 3])
  }

  /** The next word of the message schedule. */
  function NextWord(block: seq<Byte>, w: seq<Word>): Word
    requires |block| == 64 && |w| < 64
  {
    var t := |w|;
    if t < 16 then BlockWord(block, t)
    else Sum(Sum(Sum(w[t - 16], SmallSigma0(w[t - 15])), w[t - 7]), SmallSigma1(w[t - 2]))
  }

  /** The first t words of the message schedule. */
  function Schedule(block: seq<Byte>, t: nat): (w: seq<Word>)
    requires |block| == 64 && t <= 64
    ensures |w| == t
  {
    if t == 0 then [] else var w := Schedule(block, t - 1); w + [NextWord(block, w)]
  }

  /** The working variables a to h. */
  datatype Vars = Vars(a: Word, b: Word, c: Word, d: Word, e: Word, f: Word, g: Word, h: Word)

  function T1(v: Vars, k: Word, w: Word): Word { Sum(Sum(Sum(Sum(v.h, BigSigma1(v.e)), Ch(v.e, v.f, v.g)), k), w) }

  function T2(v: Vars): Word { Sum(BigSigma0(v.a), Maj(v.a, v.b, v.c)) }

  function Round(v: Vars, k: Word, w: Word): Vars {
    Vars(Sum(T1(v, k, w), T2(v)), v.a, v.b, v.c, Sum(v.d, T1(v, k, w)), v.e, v.f, v.g)
  }

  function Rounds(v: Vars, w: seq<Word>, t: nat): Vars
    requires |w| == 64 && t <= 64
  {
    if t == 0 then v else Round(Rounds(v, w, t - 1), RoundConstant(t - 1), w[t - 1])
  }

  function FromWords(h: seq<Word>): Vars
    requires |h| == 8
  {
    Vars(h[0], h[1], h[2], h[3], h[4], h[5], h[6], h[7])
  }

  function Added(h: seq<Word>, v: Vars): (r: seq<Word>)
    requires |h| == 8
    ensures |r| == 8
  {
    [Sum(h[0], v.a), Sum(h[1], v.b), Sum(h[2], v.c), Sum(h[3], v.d), Sum(h[4], v.e), Sum(h[5], v.f), Sum(h[6], v.g),
     Sum(h[7], v.h)]
  }

  function Compressed(h: seq<Word>, block: seq<Byte>): (r: seq<Word>)
    requires |h| == 8 && |block| == 64
    ensures |r| == 8
  {
    Added(h, Rounds(FromWords(h), Schedule(block, Steps()), Steps()))
  }

  // ----- the message, sections 5.1.1 and 6.2

  /** The blocks of a message one after the other. */
  function HashBlocks(h: seq<Word>, m: seq<Byte>): (r: seq<Word>)
    requires |h| == 8
    ensures |r| == 8
    decreases |m|
  {
    if |m| < 64 then h else HashBlocks(Compressed(h, m[..64]), m[64..])
  }

  const TWO_TO_64 := 0x1_0000_0000_0000_0000

  function Pow256(i: nat): nat { if i == 0 then 1 else 256 * Pow256(i - 1) }

  lemma {:induction false} Pow256Positive(i: nat)
    ensures Pow256(i) > 0
  {
    if i > 0 { Pow256Positive(i - 1); }
  }

  /** The byte of weight 256 to the i. */
  function ByteOf(n: nat, i: nat): Byte { ByteNumber(n, i) as Byte }

  function ByteNumber(n: nat, i: nat): (r: nat)
    ensures r < 256
  {
    Pow256Positive(i);
    (n / Pow256(i)) % 256
  }

  /** The length in bits, as 64 bits do. */
  function Bits(size: nat): nat { (size * 8) % TWO_TO_64 }

  function Zeros(n: nat): (r: seq<Byte>)
    ensures |r| == n && forall i :: 0 <= i < n ==> r[i] == 0
  {
    seq(n, i => 0)
  }

  /** The zeros between the 1 bit, with the seven bits after it, and the length. */
  function ZeroCount(size: nat): nat {
    var rem := size % 64;
    if rem < 56 then 55 - rem else 119 - rem
  }

  /** The least number of zeros that leaves room for the length at the end of a block. */
  lemma ZeroCountLeast(size: nat, k: nat)
    ensures (size + 1 + ZeroCount(size)) % 64 == 56
    ensures (size + 1 + k) % 64 == 56 ==> ZeroCount(size) <= k
  {
  }

  function LengthBytes(bits: nat): (r: seq<Byte>)
    ensures |r| == 8 && forall i :: 0 <= i < 8 ==> r[i] == ByteOf(bits, 7 - i)
  {
    seq(8, i requires 0 <= i < 8 => ByteOf(bits, 7 - i))
  }

  function Padded(data: seq<Byte>): seq<Byte> {
    data + ([0x80 as Byte] + Zeros(ZeroCount(|data|)) + LengthBytes(Bits(|data|)))
  }

  /** The eight hexadecimal digits of a word. */
  function Digit(x: Word): char {
    if x == 0 then '0' else if x == 1 then '1' else if x == 2 then '2' else if x == 3 then '3'
    else if x == 4 then '4' else if x == 5 then '5' else if x == 6 then '6' else if x == 7 then '7'
    else if x == 8 then '8' else if x == 9 then '9' else if x == 10 then 'a' else if x == 11 then 'b'
    else if x == 12 then 'c' else if x == 13 then 'd' else if x == 14 then 'e' else 'f'
  }

  function Nibble(word: Word, i: nat): char
    requires i < 8
  {
    var shifted :=
      if i == 0 then word >> 28 else if i == 1 then word >> 24 else if i == 2 then word >> 20 else if i == 3 then word >> 16
      else if i == 4 then word >> 12 else if i == 5 then word >> 8 else if i == 6 then word >> 4 else word;
    Digit(shifted & 0xf)
  }

  function HexWord(word: Word): string { seq(8, i requires 0 <= i < 8 => Nibble(word, i)) }

  function Hex(words: seq<Word>): string {
    if words == [] then [] else Hex(words[..|words| - 1]) + HexWord(words[|words| - 1])
  }

  /** The digest of FIPS 180-4. */
  function Digest(data: seq<Byte>): string { Hex(HashBlocks(INITIAL, Padded(data))) }

  // ----- the computation in place

  /** The message schedule of a block. */
  method MakeSchedule(block: seq<Byte>) returns (w: array<Word>)
    requires |block| == 64
    ensures fresh(w) && w.Length == 64 && w[..] == Schedule(block, Steps())
  {
    w := new Word[64](_ => 0);
    for i := 0 to 64
      invariant w[..i] == Schedule(block, i)
    {
      if i < 16 {
        w[i] := WordOf(block[4 * i], block[4 * i + 1], block[4 * i + 2], block[4 * i + 3]);
      } else {
        var s0 := SmallSigma0(w[i - 15]);
        var s1 := SmallSigma1(w[i - 2]);
        w[i] := Sum(Sum(Sum(w[i - 16], s0), w[i - 7]), s1);
      }
      assert w[..i + 1] == w[..i] + [w[i]];
    }
    assert w[..] == w[..64];
  }

  /** One round: the working variables shift by one and take in two sums. */
  method RoundInPlace(v: array<Word>, k: Word, w: Word)
    requires v.Length == 8
    modifies v
    ensures FromWords(v[..]) == Round(old(FromWords(v[..])), k, w)
  {
    var s1 := BigSigma1(v[4]);
    var ch := Ch(v[4], v[5], v[6]);
    var t1 := Sum(Sum(Sum(Sum(v[7], s1), ch), k), w);
    var s0 := BigSigma0(v[0]);
    var maj := Maj(v[0], v[1], v[2]);
    var t2 := Sum(s0, maj);
    v[7] := v[6];
    v[6] := v[5];
    v[5] := v[4];
    v[4] := Sum(v[3], t1);
    v[3] := v[2];
    v[2] := v[1];
    v[1] := v[0];
    v[0] := Sum(t1, t2);
  }

  /** The 64 rounds over a copy of the hash value. */
  method RunRounds(h: seq<Word>, w: array<Word>) returns (v: array<Word>)
    requires |h| == 8 && w.Length == 64
    ensures fresh(v) && v.Length == 8 && FromWords(v[..]) == Rounds(FromWords(h), w[..], Steps())
  {
    v := new Word[8](i requires 0 <= i < 8 => h[i]);
    assert v[..] == h;
    for i := 0 to 64
      invariant w[..] == old(w[..]) && FromWords(v[..]) == Rounds(FromWords(h), w[..], i)
    {
      RoundInPlace(v, RoundConstant(i), w[i]);
    }
  }

  method AddInPlace(h: array<Word>, v: array<Word>)
    requires h.Length == 8 && v.Length == 8 && h != v
    modifies h
    ensures h[..] == Added(old(h[..]), FromWords(v[..]))
  {
    for i := 0 to 8
      invariant v[..] == old(v[..])
      invariant forall j :: 0 <= j < i ==> h[j] == Sum(old(h[j]), v[j])
      invariant forall j :: i <= j < 8 ==> h[j] == old(h[j])
    {
      h[i] := Sum(h[i], v[i]);
    }
    AddedIs(old(h[..]), v[..], h[..]);
  }

  lemma AddedIs(h: seq<Word>, v: seq<Word>, r: seq<Word>)
    requires |h| == |v| == |r| == 8 && forall j :: 0 <= j < 8 ==> r[j] == Sum(h[j], v[j])
    ensures r == Added(h, FromWords(v))
  {
    var sum := Added(h, FromWords(v));
    assert r[0] == sum[0] && r[1] == sum[1] && r[2] == sum[2] && r[3] == sum[3];
    assert r[4] == sum[4] && r[5] == sum[5] && r[6] == sum[6] && r[7] == sum[7];
  }

  method Compress(h: array<Word>, block: seq<Byte>)
    requires h.Length == 8 && |block| == 64
    modifies h
    ensures h[..] == Compressed(old(h[..]), block)
  {
    var w := MakeSchedule(block);
    var v := RunRounds(h[..], w);
    AddInPlace(h, v);
  }

  // ----- the message as it streams

  lemma {:induction false} HashBlocksSplit(h: seq<Word>, a: seq<Byte>, b: seq<Byte>)
    requires |h| == 8 && |a| % 64 == 0
    ensures HashBlocks(h, a + b) == HashBlocks(HashBlocks(h, a), b)
    decreases |a|
  {
    if a == [] {
      assert a + b == b;
    } else {
      assert (a + b)[..64] == a[..64] && (a + b)[64..] == a[64..] + b;
      HashBlocksSplit(Compressed(h, a[..64]), a[64..], b);
    }
  }

  lemma OneBlock(h: seq<Word>, before: seq<Byte>, block: seq<Byte>)
    requires |h| == 8 && |before| % 64 == 0 && |block| == 64
    ensures HashBlocks(h, before + block) == Compressed(HashBlocks(h, before), block)
  {
    HashBlocksSplit(h, before, block);
    SingleBlock(HashBlocks(h, before), block);
  }

  lemma SingleBlock(h: seq<Word>, block: seq<Byte>)
    requires |h| == 8 && |block| == 64
    ensures HashBlocks(h, block) == Compressed(h, block)
  {
    assert block[..64] == block;
  }

  lemma WholeBlocks(m: seq<Byte>, i: nat)
    requires 64 * i <= |m|
    ensures |m[..64 * i]| % 64 == 0
  {
  }

  /** Compresses the blocks of m into h. */
  method CompressAll(h: array<Word>, m: seq<Byte>, blocks: nat)
    requires h.Length == 8 && 64 * blocks <= |m|
    modifies h
    ensures h[..] == HashBlocks(old(h[..]), m[..64 * blocks])
  {
    for i := 0 to blocks
      invariant h[..] == HashBlocks(old(h[..]), m[..64 * i])
    {
      var block := m[64 * i..64 * i + 64];
      assert m[..64 * (i + 1)] == m[..64 * i] + block;
      WholeBlocks(m, i);
      OneBlock(old(h[..]), m[..64 * i], block);
      Compress(h, block);
    }
  }

  /** Where the tail ends: one block, or two when fewer than 9 bytes are left in it. */
  function TailLength(rem: nat): nat { if rem < 56 then 64 else 128 }

  /** The bytes of data in full blocks. */
  function FullSize(data: seq<Byte>): (n: nat)
    ensures n <= |data| && n % 64 == 0 && |data| - n == |data| % 64 && n == 64 * (|data| / 64)
  {
    |data| - |data| % 64
  }

  /** The end of the padded message, from the last full block of data on. */
  function Tail(data: seq<Byte>): seq<Byte> {
    data[FullSize(data)..] + ([0x80 as Byte] + Zeros(ZeroCount(|data|)) + LengthBytes(Bits(|data|)))
  }

  lemma TailFits(data: seq<Byte>)
    ensures |Tail(data)| == TailLength(|data| % 64)
    ensures Padded(data) == data[..FullSize(data)] + Tail(data)
  {
    var full := FullSize(data);
    assert data == data[..full] + data[full..];
  }

  /** The tail buffer: the data left, 0x80, zeros, and the length in bits at the end. */
  method FillTail(data: seq<Byte>) returns (tail: array<Byte>, length: nat)
    ensures length == TailLength(|data| % 64) && tail.Length == 128 && tail[..length] == Tail(data)
  {
    var full := FullSize(data);
    var rem := |data| - full;
    tail := new Byte[128](_ => 0);
    for i := 0 to rem
      invariant forall j :: 0 <= j < i ==> tail[j] == data[full + j]
      invariant forall j :: i <= j < 128 ==> tail[j] == 0
    {
      tail[i] := data[full + i];
    }
    tail[rem] := 0x80;
    length := TailLength(rem);
    var bits := Bits(|data|);
    for i := 0 to 8
      invariant forall j :: 0 <= j < rem ==> tail[j] == data[full + j]
      invariant tail[rem] == 0x80
      invariant forall j :: rem < j < length - i ==> tail[j] == 0
      invariant forall j :: 0 <= j < i ==> tail[length - 1 - j] == ByteOf(bits, j)
    {
      tail[length - 1 - i] := ByteOf(bits, i);
    }
    TailFits(data);
    TailFilled(data, tail[..length]);
  }

  lemma TailFilled(data: seq<Byte>, t: seq<Byte>)
    requires var full := FullSize(data); var rem := |data| - full;
             && |t| == TailLength(rem) == |Tail(data)|
             && (forall j :: 0 <= j < rem ==> t[j] == data[full + j])
             && t[rem] == 0x80
             && (forall j :: rem < j < |t| - 8 ==> t[j] == 0)
             && (forall j :: 0 <= j < 8 ==> t[|t| - 1 - j] == ByteOf(Bits(|data|), j))
    ensures t == Tail(data)
  {
    var full := FullSize(data);
    var rem := |data| - full;
    forall j | 0 <= j < |t| ensures t[j] == Tail(data)[j] {
      if j >= |t| - 8 {
        assert t[|t| - 1 - (|t| - 1 - j)] == ByteOf(Bits(|data|), |t| - 1 - j);
      }
    }
  }

  method HexDigits(word: Word) returns (digits: string)
    ensures digits == HexWord(word)
  {
    digits := "";
    for i := 0 to 8
      invariant digits == HexWord(word)[..i]
    {
      digits := digits + [Nibble(word, i)];
    }
  }

  method HexOf(h: array<Word>) returns (out: string)
    requires h.Length == 8
    ensures out == Hex(h[..])
  {
    out := "";
    for k := 0 to 8
      invariant out == Hex(h[..k])
    {
      var digits := HexDigits(h[k]);
      assert h[..k + 1][..k] == h[..k];
      out := out + digits;
    }
    assert h[..8] == h[..];
  }

  /** The full blocks of the data, then the tail. */
  method HashInPlace(h: array<Word>, data: seq<Byte>)
    requires h.Length == 8
    modifies h
    ensures h[..] == HashBlocks(old(h[..]), Padded(data))
  {
    var full := |data| / 64;
    CompressAll(h, data, full);
    var tail, length := FillTail(data);
    BlocksOf(length);
    assert tail[..length][..64 * (length / 64)] == Tail(data);
    CompressAll(h, tail[..length], length / 64);
    Streamed(old(h[..]), data);
  }

  lemma BlocksOf(length: nat)
    requires length == 64 || length == 128
    ensures 64 * (length / 64) == length
  {
  }

  lemma Streamed(h: seq<Word>, data: seq<Byte>)
    requires |h| == 8
    ensures HashBlocks(HashBlocks(h, data[..FullSize(data)]), Tail(data)) == HashBlocks(h, Padded(data))
  {
    TailFits(data);
    HashBlocksSplit(h, data[..FullSize(data)], Tail(data));
  }

  /** The digest of the padded message, computed without building it. */
  method Sha256Hex(data: seq<Byte>) returns (out: string)
    ensures out == Digest(data)
  {
    assert |INITIAL| == 8;
    var h := new Word[8](i requires 0 <= i < 8 => INITIAL[i]);
    assert h[..] == INITIAL;
    HashInPlace(h, data);
    out := HexOf(h);
  }
}
