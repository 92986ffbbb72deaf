/** SHA-256 as FIPS 180-4 defines it: sections 4.1.2, 4.2.2, 5.1.1, 5.2.1, 5.3.3 and 6.2.2. */
module Fips180 {

  type Byte = x: nat | x < 0x100
  type Word = x: nat | x < 0x1_0000_0000

  /** The working variables, and also a hash value. */
  datatype Vars = Vars(a: Word, b: Word, c: Word, d: Word, e: Word, f: Word, g: Word, h: Word)

  // Section 3.2: operations on words; addition is modulo 2^32.

  function Plus(x: Word, y: Word): Word {
    (x + y) % 0x1_0000_0000
  }

  /** Rotation to the right by `n`. */
  function Rotr(u: bv32, n: nat): bv32
    requires 0 < n < 32
  {
    (u >> n) | (u << (32 - n))
  }

  // Section 4.1.2: functions.

  function ChBits(u: bv32, v: bv32, w: bv32): bv32 { (u & v) ^ (!u & w) }

  function MajBits(u: bv32, v: bv32, w: bv32): bv32 { (u & v) ^ (u & w) ^ (v & w) }

  function BigSigma0Bits(u: bv32): bv32 { Rotr(u, 2) ^ Rotr(u, 13) ^ Rotr(u, 22) }

  function BigSigma1Bits(u: bv32): bv32 { Rotr(u, 6) ^ Rotr(u, 11) ^ Rotr(u, 25) }

  function SmallSigma0Bits(u: bv32): bv32 { Rotr(u, 7) ^ Rotr(u, 18) ^ (u >> 3) }

  function SmallSigma1Bits(u: bv32): bv32 { Rotr(u, 17) ^ Rotr(u, 19) ^ (u >> 10) }

  function Ch(x: Word, y: Word, z: Word): Word { ChBits(x as bv32, y as bv32, z as bv32) as nat }

  function Maj(x: Word, y: Word, z: Word): Word { MajBits(x as bv32, y as bv32, z as bv32) as nat }

  function BigSigma0(x: Word): Word { BigSigma0Bits(x as bv32) as nat }

  function BigSigma1(x: Word): Word { BigSigma1Bits(x as bv32) as nat }

  function SmallSigma0(x: Word): Word { SmallSigma0Bits(x as bv32) as nat }

  function SmallSigma1(x: Word): Word { SmallSigma1Bits(x as bv32) as nat }

  // Section 4.2.2: constants.

  /** The first 32 bits of the fractional parts of the cube roots of the first 64 primes, in four parts. */
  const K: seq<Word> := K0 + K1 + K2 + K3

  const K0: seq<Word> := [
    0x428a2f98, 0x71374491, 0xb5c0fbcf, 0xe9b5dba5, 0x3956c25b, 0x59f111f1, 0x923f82a4, 0xab1c5ed5,
    0xd807aa98, 0x12835b01, 0x243185be, 0x550c7dc3, 0x72be5d74, 0x80deb1fe, 0x9bdc06a7, 0xc19bf174
  ]

  const K1: seq<Word> := [
    0xe49b69c1, 0xefbe4786, 0x0fc19dc6, 0x240ca1cc, 0x2de92c6f, 0x4a7484aa, 0x5cb0a9dc, 0x76f988da,
    0x983e5152, 0xa831c66d, 0xb00327c8, 0xbf597fc7, 0xc6e00bf3, 0xd5a79147, 0x06ca6351, 0x14292967
  ]

  const K2: seq<Word> := [
    0x27b70a85, 0x2e1b2138, 0x4d2c6dfc, 0x53380d13, 0x650a7354, 0x766a0abb, 0x81c2c92e, 0x92722c85,
    0xa2bfe8a1, 0xa81a664b, 0xc24b8b70, 0xc76c51a3, 0xd192e819, 0xd6990624, 0xf40e3585, 0x106aa070
  ]

  const K3: seq<Word> := [
    0x19a4c116, 0x1e376c08, 0x2748774c, 0x34b0bcb5, 0x391c0cb3, 0x4ed8aa4a, 0x5b9cca4f, 0x682e6ff3,
    0x748f82ee, 0x78a5636f, 0x84c87814, 0x8cc70208, 0x90befffa, 0xa4506ceb, 0xbef9a3f7, 0xc67178f2
  ]

  // Section 5.1.1: padding.

  /** The least non-negative `k` with `len + 1 + k` equal to 448 modulo 512, `len` in bits. */
  function ZeroBits(len: nat): nat {
    (447 - len) % 512
  }

  function BigEndian(n: nat, width: nat): (bytes: seq<Byte>)
    ensures |bytes| == width
  {
    if width == 0 then [] else BigEndian(n / 256, width - 1) + [n % 256]
  }

  function Pow256(k: nat): nat {
    if k == 0 then 1 else 256 * Pow256(k - 1)
  }

  lemma Pow256Of4()
    ensures Pow256(4) == 0x1_0000_0000
  {}

  function FromBigEndian(bytes: seq<Byte>): (n: nat)
    ensures n < Pow256(|bytes|)
  {
    if bytes == [] then 0 else FromBigEndian(bytes[..|bytes| - 1]) * 256 + bytes[|bytes| - 1]
  }

  lemma {:induction false} EncodeDecode(bytes: seq<Byte>)
    ensures BigEndian(FromBigEndian(bytes), |bytes|) == bytes
  {
    if bytes != [] {
      var last := |bytes| - 1;
      EncodeDecode(bytes[..last]);
      var n := FromBigEndian(bytes[..last]);
      assert (n * 256 + bytes[last]) / 256 == n && (n * 256 + bytes[last]) % 256 == bytes[last];
    }
  }

  lemma {:induction false} DecodeEncode(n: nat, width: nat)
    requires n < Pow256(width)
    ensures FromBigEndian(BigEndian(n, width)) == n
  {
    if width > 0 {
      DecodeEncode(n / 256, width - 1);
      var bytes := BigEndian(n, width);
      assert bytes[..width - 1] == BigEndian(n / 256, width - 1);
    }
  }

  /** For a message of whole bytes: the bit 1 and the first seven zero bits are the byte 0x80. */
  function Padded(m: seq<Byte>): seq<Byte> {
    m + [0x80] + seq((ZeroBits(8 * |m|) - 7) / 8, _ => 0) + BigEndian(8 * |m|, 8)
  }

  // Section 5.2.1: a block is sixteen big-endian words.

  function WordAt(block: seq<Byte>, i: nat): Word
    requires |block| == 64 && i < 16
  {
    Pow256Of4();
    FromBigEndian(block[4 * i..4 * i + 4])
  }

  // Section 5.3.3: the initial hash value.

  const H0 := Vars(0x6a09e667, 0xbb67ae85, 0x3c6ef372, 0xa54ff53a, 0x510e527f, 0x9b05688c, 0x1f83d9ab, 0x5be0cd19)

  // Section 6.2.2: the hash computation.

  function Schedule(block: seq<Byte>, t: nat): Word
    requires |block| == 64
  {
    if t < 16 then WordAt(block, t)
    else
      Plus(Plus(Plus(SmallSigma1(Schedule(block, t - 2)), Schedule(block, t - 7)),
                SmallSigma0(Schedule(block, t - 15))),
           Schedule(block, t - 16))
  }

  /** One round, with the round's constant and schedule word. */
  function Round(v: Vars, k: Word, w: Word): Vars {
    var t1 := Plus(Plus(Plus(Plus(v.h, BigSigma1(v.e)), Ch(v.e, v.f, v.g)), k), w);
    var t2 := Plus(BigSigma0(v.a), Maj(v.a, v.b, v.c));
    Vars(Plus(t1, t2), v.a, v.b, v.c, Plus(v.d, t1), v.e, v.f, v.g)
  }

  /** The working variables after the first `t` rounds. */
  function Rounds(v: Vars, block: seq<Byte>, t: nat): Vars
    requires |block| == 64 && t <= |K|
  {
    if t == 0 then v else Round(Rounds(v, block, t - 1), K[t - 1], Schedule(block, t - 1))
  }

  function Add(u: Vars, v: Vars): Vars {
    Vars(Plus(u.a, v.a), Plus(u.b, v.b), Plus(u.c, v.c), Plus(u.d, v.d),
         Plus(u.e, v.e), Plus(u.f, v.f), Plus(u.g, v.g), Plus(u.h, v.h))
  }

  function Compress(hash: Vars, block: seq<Byte>): Vars
    requires |block| == 64
  {
    Add(Rounds(hash, block, |K|), hash)
  }

  /** The hash value after the first `n` blocks of `p`. */
  function HashBlocks(p: seq<Byte>, n: nat): Vars
    requires 64 * n <= |p|
  {
    if n == 0 then H0 else Compress(HashBlocks(p, n - 1), p[64 * (n - 1)..64 * n])
  }

  /** Later blocks do not matter to the hash value after `n`. */
  lemma {:induction false} HashPrefix(p: seq<Byte>, q: seq<Byte>, n: nat)
    requires 64 * n <= |p| && p <= q
    ensures HashBlocks(q, n) == HashBlocks(p, n)
  {
    hide Compress;
    if n > 0 {
      HashPrefix(p, q, n - 1);
      assert p[64 * (n - 1)..64 * n] == q[64 * (n - 1)..64 * n];
    }
  }

  function Digest(v: Vars): (bytes: seq<Byte>)
    ensures |bytes| == 32
  {
    BigEndian(v.a, 4) + BigEndian(v.b, 4) + BigEndian(v.c, 4) + BigEndian(v.d, 4) +
    BigEndian(v.e, 4) + BigEndian(v.f, 4) + BigEndian(v.g, 4) + BigEndian(v.h, 4)
  }

  /** The zero bits fill whole bytes, after the seven that follow the bit 1. */
  lemma ZeroBytes(len: nat)
    ensures ZeroBits(8 * len) == 8 * ((55 - len) % 64) + 7
  {
    var q, r := (55 - len) / 64, (55 - len) % 64;
    assert 447 - 8 * len == 512 * q + (8 * r + 7);
  }

  lemma PaddedLength(m: seq<Byte>)
    ensures |Padded(m)| % 64 == 0 && |Padded(m)| == |m| + 9 + (55 - |m|) % 64
  {
    ZeroBytes(|m|);
    var q, r := (55 - |m|) / 64, (55 - |m|) % 64;
    assert |m| + 9 + r == 64 * (1 - q);
  }

  function Sha256(m: seq<Byte>): (digest: seq<Byte>)
    ensures |digest| == 32
  {
    PaddedLength(m);
    Digest(HashBlocks(Padded(m), |Padded(m)| / 64))
  }
}
