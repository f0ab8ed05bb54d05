/** The SHA-1 algorithm as FIPS 180-4 states it, over 32-bit words and 8-bit bytes. */
module Fips180 {

  type Byte = bv8
  type Word = bv32

  /** The five working variables, and equally the five words of a hash value. */
  datatype Hash = Hash(a: Word, b: Word, c: Word, d: Word, e: Word)

  // Section 5.3.1
  const INITIAL := Hash(0x67452301, 0xefcdab89, 0x98badcfe, 0x10325476, 0xc3d2e1f0)

  // Section 2.2.2: the circular left shifts the algorithm uses
  function RotL1(x: Word): Word { (x << 1) | (x >> 31) }
  function RotL5(x: Word): Word { (x << 5) | (x >> 27) }
  function RotL30(x: Word): Word { (x << 30) | (x >> 2) }

  // Section 4.1.1
  function Ch(x: Word, y: Word, z: Word): Word { (x & y) ^ (!x & z) }
  function Parity(x: Word, y: Word, z: Word): Word { x ^ y ^ z }
  function Maj(x: Word, y: Word, z: Word): Word { (x & y) ^ (x & z) ^ (y & z) }

  function F(t: nat, x: Word, y: Word, z: Word): Word {
    if t < 20 then Ch(x, y, z)
    else if t < 40 then Parity(x, y, z)
    else if t < 60 then Maj(x, y, z)
    else Parity(x, y, z)
  }

  // Section 4.2.1
  function K(t: nat): Word {
    if t < 20 then 0x5a827999
    else if t < 40 then 0x6ed9eba1
    else if t < 60 then 0x8f1bbcdc
    else 0xca62c1d6
  }

  /** Section 6.1.2, step 1: word t of the message schedule. */
  function Schedule(block: seq<Word>, t: nat): Word
    requires |block| == 16
  {
    if t < 16 then block[t]
    else RotL1(Schedule(block, t - 3) ^ Schedule(block, t - 8)
               ^ Schedule(block, t - 14) ^ Schedule(block, t - 16))
  }

  /** Addition modulo 2^32. */
  function Sum(x: Word, y: Word): Word { x + y }

  /** Section 6.1.2, step 3, with the logical function and the constant of the round already chosen. */
  function Turn(h: Hash, f: Word, k: Word, w: Word): Hash {
    Hash(RotL5(h.a) + f + h.e + k + w, h.a, RotL30(h.b), h.c, h.d)
  }

  /** Section 6.1.2, step 3: round t. */
  function Round(h: Hash, t: nat, w: Word): Hash {
    Turn(h, F(t, h.b, h.c, h.d), K(t), w)
  }

  /** The working variables after the first t rounds. */
  function Rounds(block: seq<Word>, h: Hash, t: nat): Hash
    requires |block| == 16
  {
    if t == 0 then h else Round(Rounds(block, h, t - 1), t - 1, Schedule(block, t - 1))
  }

  function Plus(g: Hash, h: Hash): Hash {
    Hash(Sum(g.a, h.a), Sum(g.b, h.b), Sum(g.c, h.c), Sum(g.d, h.d), Sum(g.e, h.e))
  }

  /** Section 6.1.2: the hash value after one more message block. */
  function Compress(h: Hash, block: seq<Word>): Hash
    requires |block| == 16
  {
    Plus(h, Rounds(block, h, 80))
  }

  /** Section 6.1.2: the hash value after all the 16-word message blocks in ws. */
  function HashWords(h: Hash, ws: seq<Word>): Hash {
    if |ws| < 16 then h
    else Compress(HashWords(h, ws[..|ws| - 16]), ws[|ws| - 16..])
  }

  function Pack(b0: Byte, b1: Byte, b2: Byte, b3: Byte): Word {
    ((b0 as Word) << 24) | ((b1 as Word) << 16) | ((b2 as Word) << 8) | (b3 as Word)
  }

  /** Section 3.1: bytes read as big-endian words. */
  function Words(bs: seq<Byte>): (ws: seq<Word>)
    ensures |ws| == |bs| / 4
  {
    seq(|bs| / 4, k requires 0 <= k < |bs| / 4 => Pack(bs[4 * k], bs[4 * k + 1], bs[4 * k + 2], bs[4 * k + 3]))
  }

  function Zeros(n: nat): (z: seq<Byte>)
    ensures |z| == n
  {
    seq(n, _ => 0)
  }

  /** Section 5.1.1: the least number of zero bytes after the mark that leaves room for the 64-bit length. */
  function PadLength(n: nat): (k: nat)
    ensures k < 64 && (n + 1 + k) % 64 == 56
  {
    if n % 64 < 56 then 55 - n % 64 else 119 - n % 64
  }

  /** Section 5.1.1: the bit length of n bytes as a 64-bit block, high word first. */
  function LengthWords(n: nat): (ws: seq<Word>)
    requires n < 0x2000_0000_0000_0000
    ensures |ws| == 2
  {
    [(8 * n / 0x1_0000_0000) as Word, (8 * n % 0x1_0000_0000) as Word]
  }

  /** Section 5.1.1: the padded message, as words. */
  function PaddedWords(m: seq<Byte>): (ws: seq<Word>)
    requires |m| < 0x2000_0000_0000_0000
  {
    Words(m + [0x80] + Zeros(PadLength(|m|))) + LengthWords(|m|)
  }

  function BytesOf(x: Word): (bs: seq<Byte>)
    ensures |bs| == 4
  {
    [(x >> 24) as Byte, ((x >> 16) & 0xff) as Byte, ((x >> 8) & 0xff) as Byte, (x & 0xff) as Byte]
  }

  function DigestBytes(h: Hash): (bs: seq<Byte>)
    ensures |bs| == 20
  {
    BytesOf(h.a) + BytesOf(h.b) + BytesOf(h.c) + BytesOf(h.d) + BytesOf(h.e)
  }

  /** The message digest of m. */
  function Digest(m: seq<Byte>): (bs: seq<Byte>)
    requires |m| < 0x2000_0000_0000_0000
    ensures |bs| == 20
  {
    DigestBytes(HashWords(INITIAL, PaddedWords(m)))
  }
}
