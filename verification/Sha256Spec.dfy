/** SHA-256 as FIPS 180-4 defines it on a whole message. */
module Sha256Spec {
  import opened Bytes

  /** std::uint32_t: addition is modulo 2^32. */
  type Word = bv32

  type Word32 = w: int | 0 <= w < 0x1_0000_0000

  /** Section 4.2.2 of FIPS 180-4. */
  const ROUND_CONSTANTS: seq<Word32> :=
    [0x428a2f98, 0x71374491, 0xb5c0fbcf, 0xe9b5dba5, 0x3956c25b, 0x59f111f1, 0x923f82a4, 0xab1c5ed5] +
    [0xd807aa98, 0x12835b01, 0x243185be, 0x550c7dc3, 0x72be5d74, 0x80deb1fe, 0x9bdc06a7, 0xc19bf174] +
    [0xe49b69c1, 0xefbe4786, 0x0fc19dc6, 0x240ca1cc, 0x2de92c6f, 0x4a7484aa, 0x5cb0a9dc, 0x76f988da] +
    [0x983e5152, 0xa831c66d, 0xb00327c8, 0xbf597fc7, 0xc6e00bf3, 0xd5a79147, 0x06ca6351, 0x14292967] +
    [0x27b70a85, 0x2e1b2138, 0x4d2c6dfc, 0x53380d13, 0x650a7354, 0x766a0abb, 0x81c2c92e, 0x92722c85] +
    [0xa2bfe8a1, 0xa81a664b, 0xc24b8b70, 0xc76c51a3, 0xd192e819, 0xd6990624, 0xf40e3585, 0x106aa070] +
    [0x19a4c116, 0x1e376c08, 0x2748774c, 0x34b0bcb5, 0x391c0cb3, 0x4ed8aa4a, 0x5b9cca4f, 0x682e6ff3] +
    [0x748f82ee, 0x78a5636f, 0x84c87814, 0x8cc70208, 0x90befffa, 0xa4506ceb, 0xbef9a3f7, 0xc67178f2]

  /** Section 5.3.3 of FIPS 180-4. */
  const INITIAL_HASH: seq<Word> := [
    0x6a09e667, 0xbb67ae85, 0x3c6ef372, 0xa54ff53a, 0x510e527f, 0x9b05688c, 0x1f83d9ab, 0x5be0cd19
  ]

  function ToWord(w: Word32): Word { w as Word }

  function Add(x: Word, y: Word): Word { x + y }

  function RotateRight(x: Word, n: bv6): Word
    requires n <= 32
  {
    (x >> n) | (x << (32 - n))
  }

  function Ch(x: Word, y: Word, z: Word): Word { (x & y) ^ (!x & z) }

  function Maj(x: Word, y: Word, z: Word): Word { (x & y) ^ (x & z) ^ (y & z) }

  function BigSigma0(x: Word): Word { RotateRight(x, 2) ^ RotateRight(x, 13) ^ RotateRight(x, 22) }

  function BigSigma1(x: Word): Word { RotateRight(x, 6) ^ RotateRight(x, 11) ^ RotateRight(x, 25) }

  function SmallSigma0(x: Word): Word { RotateRight(x, 7) ^ RotateRight(x, 18) ^ (x >> 3) }

  function SmallSigma1(x: Word): Word { RotateRight(x, 17) ^ RotateRight(x, 19) ^ (x >> 10) }

  function Octet(b: Byte): Word { (b as bv8) as bv32 }

  /** Four octets, most significant first. */
  function WordOf(a: Byte, b: Byte, c: Byte, d: Byte): Word {
    (Octet(a) << 24) | (Octet(b) << 16) | (Octet(c) << 8) | Octet(d)
  }

  function BlockWord(block: seq<Byte>, t: nat): Word
    requires |block| == 64 && t < 16
  {
    WordOf(block[4 * t], block[4 * t + 1], block[4 * t + 2], block[4 * t + 3])
  }

  /** The message schedule, section 6.2.2 step 1. */
  function Schedule(block: seq<Byte>, t: nat): Word
    requires |block| == 64 && t < 64
  {
    if t < 16 then BlockWord(block, t)
    else
      Add(Add(Add(SmallSigma1(Schedule(block, t - 2)), Schedule(block, t - 7)),
              SmallSigma0(Schedule(block, t - 15))), Schedule(block, t - 16))
  }

  datatype Working = Working(a: Word, b: Word, c: Word, d: Word, e: Word, f: Word, g: Word, h: Word)

  /** One round, section 6.2.2 step 3. */
  function Round(v: Working, k: Word, w: Word): Working {
    var t1 := Add(Add(Add(Add(v.h, BigSigma1(v.e)), Ch(v.e, v.f, v.g)), k), w);
    var t2 := Add(BigSigma0(v.a), Maj(v.a, v.b, v.c));
    Working(Add(t1, t2), v.a, v.b, v.c, Add(v.d, t1), v.e, v.f, v.g)
  }

  function Load(h: seq<Word>): Working
    requires |h| == 8
  {
    Working(h[0], h[1], h[2], h[3], h[4], h[5], h[6], h[7])
  }

  function Rounds(h: seq<Word>, block: seq<Byte>, t: nat): Working
    requires |h| == 8 && |block| == 64 && t <= 64
  {
    if t == 0 then Load(h)
    else Round(Rounds(h, block, t - 1), ToWord(ROUND_CONSTANTS[t - 1]), Schedule(block, t - 1))
  }

  /** The intermediate hash value, section 6.2.2 step 4. */
  function Accumulated(h: seq<Word>, v: Working): (r: seq<Word>)
    requires |h| == 8
    ensures |r| == 8
  {
    [Add(h[0], v.a), Add(h[1], v.b), Add(h[2], v.c), Add(h[3], v.d),
     Add(h[4], v.e), Add(h[5], v.f), Add(h[6], v.g), Add(h[7], v.h)]
  }

  /** The compression function: section 6.2.2 steps 1 to 4. */
  function Compress(h: seq<Word>, block: seq<Byte>): (r: seq<Word>)
    requires |h| == 8 && |block| == 64
    ensures |r| == 8
  {
    Accumulated(h, Rounds(h, block, 64))
  }

  predicate WholeBlocks(m: seq<Byte>) { |m| % 64 == 0 }

  /** The hash value after all blocks of a message of whole blocks. */
  function Fold(m: seq<Byte>): (r: seq<Word>)
    requires WholeBlocks(m)
    ensures |r| == 8
  {
    if m == [] then INITIAL_HASH else Compress(Fold(m[..|m| - 64]), m[|m| - 64..])
  }

  /** Number of zero octets: the k of section 5.1.1, in octets. */
  function ZeroCount(n: nat): nat { (119 - n % 64) % 64 }

  function Zeros(n: nat): seq<Byte> { seq(n, _ => 0) }

  function BigEndian64(v: nat): seq<Byte>
    requires v < 0x1_0000_0000_0000_0000
  {
    seq(8, i requires 0 <= i < 8 => LengthOctet(v, i))
  }

  /** Byte i of a 64-bit count, most significant first. */
  function LengthOctet(v: nat, i: nat): Byte
    requires i < 8
  {
    v / Power256(7 - i) % 0x100
  }

  function Power256(n: nat): (p: nat)
    ensures p > 0
  {
    if n == 0 then 1 else 0x100 * Power256(n - 1)
  }

  /** Section 5.1.1, with the length field given separately. */
  function PadWith(m: seq<Byte>, bits: nat): (p: seq<Byte>)
    requires bits < 0x1_0000_0000_0000_0000
    ensures WholeBlocks(p)
  {
    m + [0x80] + Zeros(ZeroCount(|m|)) + BigEndian64(bits)
  }

  /** FIPS 180-4 defines the digest for messages of fewer than 2^64 bits. */
  function Digest(m: seq<Byte>): (r: seq<Word>)
    requires |m| < 0x2000_0000_0000_0000
    ensures |r| == 8
  {
    Fold(PadWith(m, 8 * |m|))
  }

  /** The padding uses the least k with l + 1 + k = 448 modulo 512 (in octets: 56 modulo 64). */
  lemma PaddingIsMinimal(n: nat, k: nat)
    ensures (n + 1 + ZeroCount(n)) % 64 == 56
    ensures (n + 1 + k) % 64 == 56 ==> ZeroCount(n) <= k
  {
    var q, r := n / 64, n % 64;
    assert n + 1 + ZeroCount(n) == 64 * (if r < 56 then q else q + 1) + 56;
    if k < ZeroCount(n) {
      assert n + 1 + k == 64 * (if r + 1 + k < 64 then q else q + 1) + (if r + 1 + k < 64 then r + 1 + k else r + 1 + k - 64);
    }
  }
}
