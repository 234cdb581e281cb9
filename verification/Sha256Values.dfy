/** What the constants and the functions on words of FIPS 180-4 compute: bits, octets and
    the roots of the first primes. */
module Sha256Values {
  import opened Bytes
  import opened Sha256Spec

  // Words.

  lemma ChoiceOfY(x: Word, y: Word, z: Word)
    ensures Ch(x, y, z) & x == y & x
  {}

  lemma ChoiceOfZ(x: Word, y: Word, z: Word)
    ensures Ch(x, y, z) & !x == z & !x
  {}

  lemma MajorityAgreed(x: Word, y: Word, z: Word)
    ensures Maj(x, y, z) & !(x ^ y) == x & !(x ^ y)
  {}

  lemma MajorityDecided(x: Word, y: Word, z: Word)
    ensures Maj(x, y, z) & (x ^ y) == z & (x ^ y)
  {}

  /** Choice takes y where x has a one and z elsewhere; majority takes what x and y agree
      on, and z where they differ. */
  lemma ChoiceAndMajority(x: Word, y: Word, z: Word)
    ensures Ch(x, y, z) & x == y & x && Ch(x, y, z) & !x == z & !x
    ensures Maj(x, y, z) & !(x ^ y) == x & !(x ^ y) && Maj(x, y, z) & (x ^ y) == z & (x ^ y)
  {
    hide Ch, Maj;
    ChoiceOfY(x, y, z);
    ChoiceOfZ(x, y, z);
    MajorityAgreed(x, y, z);
    MajorityDecided(x, y, z);
  }

  /** One octet more at the least significant end. */
  function Append(word: Word, octet: Word): Word { word * 0x100 + octet }

  function WordReading(octets: seq<Byte>): Word {
    if octets == [] then 0 else Append(WordReading(octets[..|octets| - 1]), Octet(octets[|octets| - 1]))
  }

  lemma WordOfReads(a: Byte, b: Byte, c: Byte, d: Byte)
    ensures WordOf(a, b, c, d) == Append(Append(Append(Append(0, Octet(a)), Octet(b)), Octet(c)), Octet(d))
  {}

  /** A word of a block is its four octets, read most significant first. */
  lemma BlockWordReads(block: seq<Byte>, t: nat)
    requires |block| == 64 && t < 16
    ensures BlockWord(block, t) == WordReading(block[4 * t..4 * t + 4])
  {
    hide Octet, WordOf, Append;
    var s := block[4 * t..4 * t + 4];
    WordOfReads(s[0], s[1], s[2], s[3]);
    assert s[..3][..2] == s[..2] && s[..2][..1] == s[..1] && s[..1][..0] == [];
    assert WordReading(s[..1]) == Append(0, Octet(s[0]));
    assert WordReading(s[..2]) == Append(WordReading(s[..1]), Octet(s[1]));
    assert WordReading(s[..3]) == Append(WordReading(s[..2]), Octet(s[2]));
    assert s == s[..4];
  }

  function Reading(octets: seq<Byte>): nat {
    if octets == [] then 0 else Reading(octets[..|octets| - 1]) * 0x100 + octets[|octets| - 1]
  }

  lemma Products(a: nat, b: nat, p: nat)
    requires a <= b
    ensures a * p <= b * p
  {}

  lemma Quotient(v: nat, p: nat, q: nat, r: nat)
    requires p > 0 && v == q * p + r && r < p
    ensures v / p == q
  {
    if v / p > q { Products(q + 1, v / p, p); }
    if v / p < q { Products(v / p + 1, q, p); }
  }

  lemma Distributes(a: nat, b: nat, p: nat)
    ensures (a * 0x100 + b) * p == a * (0x100 * p) + b * p
  {}

  lemma DivideByMore(v: nat, p: nat)
    requires p > 0
    ensures v / (0x100 * p) == v / p / 0x100
  {
    var q, r := v / p, v % p;
    var a, b := q / 0x100, q % 0x100;
    Distributes(a, b, p);
    Products(b, 0xFF, p);
    Quotient(v, 0x100 * p, a, b * p + r);
  }

  lemma {:induction false} BigEndianPrefix(v: nat, i: nat)
    requires v < 0x1_0000_0000_0000_0000 && i <= 8
    ensures Reading(BigEndian64(v)[..i]) == v / Power256(8 - i)
  {
    var s := BigEndian64(v);
    if i == 0 {
      assert Power256(8) == 0x1_0000_0000_0000_0000;
      assert s[..0] == [];
    } else {
      BigEndianPrefix(v, i - 1);
      assert s[..i][..i - 1] == s[..i - 1];
      DivideByMore(v, Power256(8 - i));
    }
  }

  /** The length field, read most significant octet first, is the count. */
  lemma BigEndian64Reads(v: nat)
    requires v < 0x1_0000_0000_0000_0000
    ensures |BigEndian64(v)| == 8 && Reading(BigEndian64(v)) == v
  {
    BigEndianPrefix(v, 8);
    assert BigEndian64(v)[..8] == BigEndian64(v);
  }

  // The constants.

  const PRIMES: seq<nat> :=
    [2, 3, 5, 7, 11, 13, 17, 19] +
    [23, 29, 31, 37, 41, 43, 47, 53] +
    [59, 61, 67, 71, 73, 79, 83, 89] +
    [97, 101, 103, 107, 109, 113, 127, 131] +
    [137, 139, 149, 151, 157, 163, 167, 173] +
    [179, 181, 191, 193, 197, 199, 211, 223] +
    [227, 229, 233, 239, 241, 251, 257, 263] +
    [269, 271, 277, 281, 283, 293, 307, 311]

  /** w holds the first 32 bits of the fractional part of the square root of p, and of the
      cube root, for a prime p up to 311. */
  predicate SquareRootBits(p: nat, w: Word) {
    var c := (if p < 4 then 1 else if p < 9 then 2 else if p < 16 then 3 else 4) * 0x1_0000_0000 + w as int;
    c * c < p * 0x1_0000_0000_0000_0000 < (c + 1) * (c + 1)
  }

  predicate CubeRootBits(p: nat, w: Word32) {
    var whole := if p < 8 then 1 else if p < 27 then 2 else if p < 64 then 3 else if p < 125 then 4 else if p < 216 then 5 else 6;
    var c := whole * 0x1_0000_0000 + w;
    c * c * c < p * 0x1_0000_0000_0000_0000_0000_0000 < (c + 1) * (c + 1) * (c + 1)
  }

  lemma SquareRoots()
    ensures SquareRootBits(2, 0x6a09e667) && SquareRootBits(3, 0xbb67ae85)
    ensures SquareRootBits(5, 0x3c6ef372) && SquareRootBits(7, 0xa54ff53a)
    ensures SquareRootBits(11, 0x510e527f) && SquareRootBits(13, 0x9b05688c)
    ensures SquareRootBits(17, 0x1f83d9ab) && SquareRootBits(19, 0x5be0cd19)
  {}

  /** Section 5.3.3: square roots of the first eight primes. */
  lemma InitialHashIsSquareRoots()
    ensures forall i :: 0 <= i < 8 ==> SquareRootBits(PRIMES[i], INITIAL_HASH[i])
  {
    hide SquareRootBits;
    SquareRoots();
  }

  lemma CubeRootsLow()
    ensures CubeRootBits(2, 0x428a2f98) && CubeRootBits(3, 0x71374491)
    ensures CubeRootBits(5, 0xb5c0fbcf) && CubeRootBits(7, 0xe9b5dba5)
    ensures CubeRootBits(11, 0x3956c25b) && CubeRootBits(13, 0x59f111f1)
    ensures CubeRootBits(17, 0x923f82a4) && CubeRootBits(19, 0xab1c5ed5)
    ensures CubeRootBits(23, 0xd807aa98) && CubeRootBits(29, 0x12835b01)
    ensures CubeRootBits(31, 0x243185be) && CubeRootBits(37, 0x550c7dc3)
    ensures CubeRootBits(41, 0x72be5d74) && CubeRootBits(43, 0x80deb1fe)
    ensures CubeRootBits(47, 0x9bdc06a7) && CubeRootBits(53, 0xc19bf174)
    ensures CubeRootBits(59, 0xe49b69c1) && CubeRootBits(61, 0xefbe4786)
    ensures CubeRootBits(67, 0x0fc19dc6) && CubeRootBits(71, 0x240ca1cc)
    ensures CubeRootBits(73, 0x2de92c6f) && CubeRootBits(79, 0x4a7484aa)
    ensures CubeRootBits(83, 0x5cb0a9dc) && CubeRootBits(89, 0x76f988da)
    ensures CubeRootBits(97, 0x983e5152) && CubeRootBits(101, 0xa831c66d)
    ensures CubeRootBits(103, 0xb00327c8) && CubeRootBits(107, 0xbf597fc7)
    ensures CubeRootBits(109, 0xc6e00bf3) && CubeRootBits(113, 0xd5a79147)
    ensures CubeRootBits(127, 0x06ca6351) && CubeRootBits(131, 0x14292967)
  {}

  lemma LowConstantsAreCubeRoots()
    ensures forall i :: 0 <= i < 32 ==> CubeRootBits(PRIMES[i], ROUND_CONSTANTS[i])
  {
    hide CubeRootBits;
    CubeRootsLow();
  }

  lemma CubeRootsHigh()
    ensures CubeRootBits(137, 0x27b70a85) && CubeRootBits(139, 0x2e1b2138)
    ensures CubeRootBits(149, 0x4d2c6dfc) && CubeRootBits(151, 0x53380d13)
    ensures CubeRootBits(157, 0x650a7354) && CubeRootBits(163, 0x766a0abb)
    ensures CubeRootBits(167, 0x81c2c92e) && CubeRootBits(173, 0x92722c85)
    ensures CubeRootBits(179, 0xa2bfe8a1) && CubeRootBits(181, 0xa81a664b)
    ensures CubeRootBits(191, 0xc24b8b70) && CubeRootBits(193, 0xc76c51a3)
    ensures CubeRootBits(197, 0xd192e819) && CubeRootBits(199, 0xd6990624)
    ensures CubeRootBits(211, 0xf40e3585) && CubeRootBits(223, 0x106aa070)
    ensures CubeRootBits(227, 0x19a4c116) && CubeRootBits(229, 0x1e376c08)
    ensures CubeRootBits(233, 0x2748774c) && CubeRootBits(239, 0x34b0bcb5)
    ensures CubeRootBits(241, 0x391c0cb3) && CubeRootBits(251, 0x4ed8aa4a)
    ensures CubeRootBits(257, 0x5b9cca4f) && CubeRootBits(263, 0x682e6ff3)
    ensures CubeRootBits(269, 0x748f82ee) && CubeRootBits(271, 0x78a5636f)
    ensures CubeRootBits(277, 0x84c87814) && CubeRootBits(281, 0x8cc70208)
    ensures CubeRootBits(283, 0x90befffa) && CubeRootBits(293, 0xa4506ceb)
    ensures CubeRootBits(307, 0xbef9a3f7) && CubeRootBits(311, 0xc67178f2)
  {}

  lemma HighConstantsAreCubeRoots()
    ensures forall i :: 32 <= i < 64 ==> CubeRootBits(PRIMES[i], ROUND_CONSTANTS[i])
  {
    hide CubeRootBits;
    CubeRootsHigh();
  }

  /** Section 4.2.2: cube roots of the first 64 primes. */
  lemma RoundConstantsAreCubeRoots()
    ensures forall i :: 0 <= i < 64 ==> CubeRootBits(PRIMES[i], ROUND_CONSTANTS[i])
  {
    hide CubeRootBits;
    LowConstantsAreCubeRoots();
    HighConstantsAreCubeRoots();
  }
}
