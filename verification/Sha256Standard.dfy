/**
 SHA-256 as FIPS 180-4 defines it: padding (section 5.1.1), parsing into blocks
 (section 5.2.1), the functions and constants (sections 4.1.2 and 4.2.2) and the
 hash computation (section 6.2.2).
 */
module Sha256Standard {

  newtype Byte = x: int | 0 <= x < 256

  newtype Word = x: int | 0 <= x < 0x1_0000_0000

  const MAX_BYTES: nat := 0xFFFF_FFFF_FFFF_FFFF / 8

  const INITIAL_STATE: seq<Word> := [
    0x6a09e667, 0xbb67ae85, 0x3c6ef372, 0xa54ff53a, 0x510e527f, 0x9b05688c, 0x1f83d9ab, 0x5be0cd19]

  /** Eight rows of eight. */
  const ROUND_CONSTANTS: seq<seq<Word>> := [
    [0x428a2f98, 0x71374491, 0xb5c0fbcf, 0xe9b5dba5, 0x3956c25b, 0x59f111f1, 0x923f82a4, 0xab1c5ed5],
    [0xd807aa98, 0x12835b01, 0x243185be, 0x550c7dc3, 0x72be5d74, 0x80deb1fe, 0x9bdc06a7, 0xc19bf174],
    [0xe49b69c1, 0xefbe4786, 0x0fc19dc6, 0x240ca1cc, 0x2de92c6f, 0x4a7484aa, 0x5cb0a9dc, 0x76f988da],
    [0x983e5152, 0xa831c66d, 0xb00327c8, 0xbf597fc7, 0xc6e00bf3, 0xd5a79147, 0x06ca6351, 0x14292967],
    [0x27b70a85, 0x2e1b2138, 0x4d2c6dfc, 0x53380d13, 0x650a7354, 0x766a0abb, 0x81c2c92e, 0x92722c85],
    [0xa2bfe8a1, 0xa81a664b, 0xc24b8b70, 0xc76c51a3, 0xd192e819, 0xd6990624, 0xf40e3585, 0x106aa070],
    [0x19a4c116, 0x1e376c08, 0x2748774c, 0x34b0bcb5, 0x391c0cb3, 0x4ed8aa4a, 0x5b9cca4f, 0x682e6ff3],
    [0x748f82ee, 0x78a5636f, 0x84c87814, 0x8cc70208, 0x90befffa, 0xa4506ceb, 0xbef9a3f7, 0xc67178f2]]

  // Operations on words (section 3.2) and functions (section 4.1.2).
  function Add(x: Word, y: Word): Word { ((x as int + y as int) % 0x1_0000_0000) as Word }
  function Bits(x: Word): bv32 { x as bv32 }
  function ToWord(x: bv32): Word { x as Word }
  function RotateRight(x: bv32, n: nat): bv32 requires 0 < n < 32 { (x >> n) | (x << (32 - n)) }
  function Ch(x: Word, y: Word, z: Word): Word { ToWord((Bits(x) & Bits(y)) ^ (!Bits(x) & Bits(z))) }
  function Maj(x: Word, y: Word, z: Word): Word {
    ToWord((Bits(x) & Bits(y)) ^ (Bits(x) & Bits(z)) ^ (Bits(y) & Bits(z)))
  }
  function BigSigma0(x: Word): Word {
    ToWord(RotateRight(Bits(x), 2) ^ RotateRight(Bits(x), 13) ^ RotateRight(Bits(x), 22))
  }
  function BigSigma1(x: Word): Word {
    ToWord(RotateRight(Bits(x), 6) ^ RotateRight(Bits(x), 11) ^ RotateRight(Bits(x), 25))
  }
  function SmallSigma0(x: Word): Word {
    ToWord(RotateRight(Bits(x), 7) ^ RotateRight(Bits(x), 18) ^ (Bits(x) >> 3))
  }
  function SmallSigma1(x: Word): Word {
    ToWord(RotateRight(Bits(x), 17) ^ RotateRight(Bits(x), 19) ^ (Bits(x) >> 10))
  }

  function RoundConstant(t: nat): Word
    requires t < 64
  {
    ROUND_CONSTANTS[t / 8][t % 8]
  }

  /** Four bytes as a big-endian word (section 3.1). */
  function BigEndianWord(b: seq<Byte>): Word
    requires |b| == 4
  {
    b[0] as Word * 0x100_0000 + b[1] as Word * 0x1_0000 + b[2] as Word * 0x100 + b[3] as Word
  }

  /** Word `t` of the message schedule (section 6.2.2, step 1). */
  function ScheduleWord(block: seq<Byte>, t: nat): Word
    requires |block| == 64 && t < 64
  {
    if t < 16 then BigEndianWord(block[4 * t..4 * t + 4])
    else Add(Add(Add(SmallSigma1(ScheduleWord(block, t - 2)), ScheduleWord(block, t - 7)),
                 SmallSigma0(ScheduleWord(block, t - 15))), ScheduleWord(block, t - 16))
  }

  datatype Variables = Variables(a: Word, b: Word, c: Word, d: Word, e: Word, f: Word, g: Word, h: Word)

  /** One round (section 6.2.2, step 3). */
  function Round(v: Variables, k: Word, w: Word): Variables {
    var t1 := Add(Add(Add(Add(v.h, BigSigma1(v.e)), Ch(v.e, v.f, v.g)), k), w);
    var t2 := Add(BigSigma0(v.a), Maj(v.a, v.b, v.c));
    Variables(Add(t1, t2), v.a, v.b, v.c, Add(v.d, t1), v.e, v.f, v.g)
  }

  function Rounds(hash: seq<Word>, block: seq<Byte>, t: nat): Variables
    requires |hash| == 8 && |block| == 64 && t <= 64
  {
    if t == 0 then Variables(hash[0], hash[1], hash[2], hash[3], hash[4], hash[5], hash[6], hash[7])
    else Round(Rounds(hash, block, t - 1), RoundConstant(t - 1), ScheduleWord(block, t - 1))
  }

  /** The working variables in the order of the hash words. */
  function Lane(v: Variables, i: nat): Word
    requires i < 8
  {
    [v.a, v.b, v.c, v.d, v.e, v.f, v.g, v.h][i]
  }

  /** The next intermediate hash value (section 6.2.2, step 4). */
  function Compress(hash: seq<Word>, block: seq<Byte>): (next: seq<Word>)
    requires |hash| == 8 && |block| == 64
    ensures |next| == 8
  {
    seq(8, i requires 0 <= i < 8 => Add(hash[i], Lane(Rounds(hash, block, 64), i)))
  }

  /** Hash value after the first `n` blocks of `message`. */
  function HashBlocks(message: seq<Byte>, n: nat): (hash: seq<Word>)
    requires 64 * n <= |message|
    ensures |hash| == 8
  {
    if n == 0 then INITIAL_STATE
    else Compress(HashBlocks(message, n - 1), message[64 * (n - 1)..64 * n])
  }

  function Zeros(n: nat): seq<Byte> { seq(n, _ => 0 as Byte) }

  /** `n` as `width` big-endian bytes. */
  function BigEndianBytes(n: nat, width: nat): (bytes: seq<Byte>)
    ensures |bytes| == width
  {
    if width == 0 then [] else BigEndianBytes(n / 256, width - 1) + [(n % 256) as Byte]
  }

  function FromBigEndian(bytes: seq<Byte>): nat {
    if bytes == [] then 0 else FromBigEndian(bytes[..|bytes| - 1]) * 256 + bytes[|bytes| - 1] as nat
  }

  /** Number of zero bytes after the 0x80 byte. */
  function ZeroCount(messageBytes: nat): nat {
    if messageBytes % 64 < 56 then 55 - messageBytes % 64
    else 119 - messageBytes % 64
  }

  /** The padded message of section 5.1.1. */
  function Padded(message: seq<Byte>): seq<Byte> {
    message + [0x80 as Byte] + Zeros(ZeroCount(|message|)) + BigEndianBytes(8 * |message|, 8)
  }

  /** How many blocks the padded message has. */
  function BlockCount(messageBytes: nat): nat { (messageBytes + 8) / 64 + 1 }

  lemma PaddedSize(n: nat)
    ensures n + 1 + ZeroCount(n) + 8 == 64 * BlockCount(n)
  {
  }

  lemma PaddedIsWholeBlocks(message: seq<Byte>)
    ensures |Padded(message)| == 64 * BlockCount(|message|)
  {
    PaddedSize(|message|);
  }

  /** The digest of a message: the hash of all blocks of its padding. */
  function Digest(message: seq<Byte>): (hash: seq<Word>)
    ensures |hash| == 8
  {
    PaddedIsWholeBlocks(message);
    HashBlocks(Padded(message), BlockCount(|message|))
  }

  /** Section 5.1.1 asks for the smallest k with l + 1 + k = 448 mod 512, in bits. */
  lemma ZeroCountIsSmallest(n: nat, k: nat)
    ensures (8 * n + 8 + 8 * ZeroCount(n)) % 512 == 448
    ensures (8 * n + 8 + 8 * k) % 512 == 448 ==> ZeroCount(n) <= k
  {
    var q, r := n / 64, n % 64;
    assert n == 64 * q + r;
  }

  lemma {:induction false} BigEndianInverse(n: nat, width: nat)
    requires n < Power256(width)
    ensures FromBigEndian(BigEndianBytes(n, width)) == n
  {
    if width > 0 { BigEndianInverse(n / 256, width - 1); }
  }

  function Power256(n: nat): (p: nat)
    ensures p > 0
  {
    if n == 0 then 1 else 256 * Power256(n - 1)
  }

  lemma QuotientUnique(a: nat, d: nat, q: nat)
    requires d > 0 && d * q <= a < d * q + d
    ensures a / d == q
  {
    var p := a / d;
    assert d * p <= a < d * p + d;
    SmallMultiple(d, q - p);
  }

  lemma SmallMultiple(d: nat, k: int)
    requires 0 - d < d * k < d
    ensures k == 0
  {
  }

  lemma DivideTwice(n: nat, d: nat)
    requires d > 0
    ensures n / 256 / d == n / (256 * d)
  {
    var q := n / 256 / d;
    var r := n / 256 - d * q;
    assert n / 256 == d * q + r && 0 <= r < d;
    assert 256 * d * q == 256 * (d * q);
    QuotientUnique(n, 256 * d, q);
  }

  /** Each byte of a big-endian number is a shifted and masked copy of the number. */
  lemma {:induction false} BigEndianByteAt(n: nat, width: nat, i: nat)
    requires i < width
    ensures BigEndianBytes(n, width)[i] as nat == (n / Power256(width - 1 - i)) % 256
  {
    if i < width - 1 {
      BigEndianByteAt(n / 256, width - 1, i);
      DivideTwice(n, Power256(width - 2 - i));
    }
  }
}
