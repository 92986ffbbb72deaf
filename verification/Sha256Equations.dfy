/**
 * The hash computation as the equations of section 6.2.2 of FIPS 180-4, over sums of integers modulo 2^32: what the
 * schedule, the working variables after each round, and the hash values after each block have to be.
 */
module Sha256Equations {
  import opened Fips180

  /** Step 1: the word `t` of the schedule. */
  predicate IsScheduleWord(block: seq<Byte>, w: seq<Word>, t: nat)
    requires |block| == |w| == 64 && t < 64
  {
    if t < 16 then
      w[t] as int == 0x100_0000 * (block[4 * t] as int) + 0x1_0000 * (block[4 * t + 1] as int)
                     + 0x100 * (block[4 * t + 2] as int) + block[4 * t + 3] as int
    else
      w[t] as int == (SmallSigma1(w[t - 2]) as int + w[t - 7] as int + SmallSigma0(w[t - 15]) as int + w[t - 16] as int)
                     % 0x1_0000_0000
  }

  /** Step 3: one round takes the working variables from `u` to `v`. */
  predicate IsRound(u: Vars, v: Vars, k: Word, w: Word) {
    var t1: int := u.h + BigSigma1(u.e) + Ch(u.e, u.f, u.g) + k + w;
    var t2: int := BigSigma0(u.a) + Maj(u.a, u.b, u.c);
    && v.h == u.g && v.g == u.f && v.f == u.e && v.d == u.c && v.c == u.b && v.b == u.a
    && v.e == (u.d + t1) % 0x1_0000_0000 && v.a == (t1 + t2) % 0x1_0000_0000
  }

  /** Step 4: the sum of two hash values, word by word. */
  predicate IsSum(s: Vars, u: Vars, v: Vars) {
    && s.a == (u.a + v.a) % 0x1_0000_0000 && s.b == (u.b + v.b) % 0x1_0000_0000
    && s.c == (u.c + v.c) % 0x1_0000_0000 && s.d == (u.d + v.d) % 0x1_0000_0000
    && s.e == (u.e + v.e) % 0x1_0000_0000 && s.f == (u.f + v.f) % 0x1_0000_0000
    && s.g == (u.g + v.g) % 0x1_0000_0000 && s.h == (u.h + v.h) % 0x1_0000_0000
  }

  predicate IsRoundAt(w: seq<Word>, v: seq<Vars>, t: nat)
    requires |w| == |K| == 64 && |v| == 65 && t < 64
  {
    IsRound(v[t], v[t + 1], K[t], w[t])
  }

  /** Steps 1 to 4 for one block: 64 rounds from the hash value, each with its constant and its schedule word. */
  ghost predicate IsCompression(hash: Vars, block: seq<Byte>, w: seq<Word>, v: seq<Vars>, result: Vars) {
    && |block| == |w| == |K| == 64 && |v| == 65
    && (forall t :: 0 <= t < 64 ==> IsScheduleWord(block, w, t))
    && v[0] == hash && (forall t :: 0 <= t < 64 ==> IsRoundAt(w, v, t))
    && IsSum(result, hash, v[64])
  }

  lemma PlusOfSums(x: int, y: int, a: Word, b: Word)
    requires a == x % 0x1_0000_0000 && b == y % 0x1_0000_0000
    ensures Plus(a, b) == (x + y) % 0x1_0000_0000
  {
  }

  lemma RoundIsRound(u: Vars, k: Word, w: Word)
    ensures IsRound(u, Round(u, k, w), k, w)
  {
    hide BigSigma0, BigSigma1, Ch, Maj, Plus;
    var s1, ch := BigSigma1(u.e), Ch(u.e, u.f, u.g);
    var s0, mj := BigSigma0(u.a), Maj(u.a, u.b, u.c);
    var h1 := Plus(u.h, s1);
    var h2 := Plus(h1, ch);
    var h3 := Plus(h2, k);
    PlusOfSums(u.h, s1, u.h, s1);
    PlusOfSums(u.h as int + s1 as int, ch, h1, ch);
    PlusOfSums(u.h as int + s1 as int + ch as int, k, h2, k);
    PlusOfSums(u.h as int + s1 as int + ch as int + k as int, w, h3, w);
    var t1, t2 := Plus(h3, w), Plus(s0, mj);
    PlusOfSums(s0, mj, s0, mj);
    PlusOfSums(u.d, u.h as int + s1 as int + ch as int + k as int + w as int, u.d, t1);
    PlusOfSums(u.h as int + s1 as int + ch as int + k as int + w as int, s0 as int + mj as int, t1, t2);
  }

  lemma ScheduleEquation(block: seq<Byte>, t: nat)
    requires |block| == 64 && t >= 16
    ensures Schedule(block, t) as int ==
            (SmallSigma1(Schedule(block, t - 2)) as int + Schedule(block, t - 7) as int
             + SmallSigma0(Schedule(block, t - 15)) as int + Schedule(block, t - 16) as int) % 0x1_0000_0000
  {
    hide SmallSigma0, SmallSigma1, Plus;
    var a, b := SmallSigma1(Schedule(block, t - 2)), Schedule(block, t - 7);
    var c, d := SmallSigma0(Schedule(block, t - 15)), Schedule(block, t - 16);
    PlusOfSums(a, b, a, b);
    PlusOfSums(a as int + b as int, c, Plus(a, b), c);
    PlusOfSums(a as int + b as int + c as int, d, Plus(Plus(a, b), c), d);
  }

  lemma ScheduleIsSchedule(block: seq<Byte>) returns (w: seq<Word>)
    requires |block| == 64
    ensures |w| == 64 && forall t :: 0 <= t < 64 ==> w[t] == Schedule(block, t) && IsScheduleWord(block, w, t)
  {
    hide Schedule, SmallSigma0, SmallSigma1, WordAt;
    w := seq(64, t requires 0 <= t < 64 => Schedule(block, t));
    forall t | 0 <= t < 64
      ensures IsScheduleWord(block, w, t)
    {
      if t < 16 {
        FirstWords(block, t);
        WordIsBigEndian(block, t);
      } else {
        ScheduleEquation(block, t);
      }
    }
  }

  lemma FirstWords(block: seq<Byte>, t: nat)
    requires |block| == 64 && t < 16
    ensures Schedule(block, t) == WordAt(block, t)
  {
  }

  lemma WordIsBigEndian(block: seq<Byte>, i: nat)
    requires |block| == 64 && i < 16
    ensures WordAt(block, i) as nat == 0x100_0000 * (block[4 * i] as nat) + 0x1_0000 * (block[4 * i + 1] as nat)
                               + 0x100 * (block[4 * i + 2] as nat) + block[4 * i + 3] as nat
  {
    var b := block[4 * i..4 * i + 4];
    assert b[..3][..2][..1][..0] == [] && b[..3][..2][..1] == [b[0]] && b[..3][..2] == [b[0], b[1]];
    assert FromBigEndian([b[0]]) == b[0] as nat;
    assert FromBigEndian(b[..3][..2]) == 0x100 * (b[0] as nat) + b[1] as nat;
    assert FromBigEndian(b[..3]) == 0x1_0000 * (b[0] as nat) + 0x100 * (b[1] as nat) + b[2] as nat;
  }

  /** The compression of a block meets the equations of the standard. */
  lemma CompressIsCompression(hash: Vars, block: seq<Byte>) returns (w: seq<Word>, v: seq<Vars>)
    requires |block| == 64
    ensures IsCompression(hash, block, w, v, Compress(hash, block))
  {
    w := ScheduleIsSchedule(block);
    SixtyFour();
    hide IsRound, IsScheduleWord, Schedule, Rounds, IsSum, Compress;
    v := seq(65, t requires 0 <= t < 65 => Rounds(hash, block, t));
    RoundsStart(hash, block);
    forall t | 0 <= t < 64
      ensures IsRoundAt(w, v, t)
    {
      NextRound(hash, block, t);
    }
    CompressIsSum(hash, block);
  }

  lemma SixtyFour()
    ensures |K| == 64
  {
  }

  lemma CompressIsSum(hash: Vars, block: seq<Byte>)
    requires |block| == 64 && |K| == 64
    ensures IsSum(Compress(hash, block), hash, Rounds(hash, block, 64))
  {
    hide Rounds;
  }

  lemma RoundsStart(hash: Vars, block: seq<Byte>)
    requires |block| == 64
    ensures Rounds(hash, block, 0) == hash
  {
  }

  lemma NextRound(hash: Vars, block: seq<Byte>, t: nat)
    requires |block| == 64 && t < |K|
    ensures IsRound(Rounds(hash, block, t), Rounds(hash, block, t + 1), K[t], Schedule(block, t))
  {
    hide IsRound, Round, Schedule;
    RoundIsRound(Rounds(hash, block, t), K[t], Schedule(block, t));
  }

  // ---- A whole message.

  /** A message padded to whole blocks: a 1 bit, the least number of zeros, and the length in bits. */
  ghost predicate IsPadded(m: seq<Byte>, p: seq<Byte>) {
    && |m| + 9 <= |p| < |m| + 9 + 64 && |p| % 64 == 0
    && p[..|m|] == m && p[|m|] == 0x80
    && (forall i :: |m| < i < |p| - 8 ==> p[i] == 0)
    && FromBigEndian(p[|p| - 8..]) == 8 * |m|
  }

  /** The word that four bytes of a digest give. */
  function WordOf(digest: seq<Byte>, i: nat): nat
    requires |digest| == 32 && i < 8
  {
    FromBigEndian(digest[4 * i..4 * i + 4])
  }

  ghost predicate Compresses(hash: Vars, block: seq<Byte>, result: Vars) {
    exists w, v :: IsCompression(hash, block, w, v, result)
  }

  ghost predicate CompressesAt(p: seq<Byte>, hashes: seq<Vars>, i: nat)
    requires i < |p| / 64 && |hashes| == |p| / 64 + 1
  {
    Compresses(hashes[i], p[64 * i..64 * i + 64], hashes[i + 1])
  }

  /** The hash values from block to block, and the digest that the last one gives. */
  ghost predicate IsHash(p: seq<Byte>, hashes: seq<Vars>, digest: seq<Byte>) {
    && |p| % 64 == 0 && |hashes| == |p| / 64 + 1 && hashes[0] == H0
    && (forall i :: 0 <= i < |p| / 64 ==> CompressesAt(p, hashes, i))
    && |digest| == 32
    && var last := hashes[|p| / 64];
       && WordOf(digest, 0) == last.a && WordOf(digest, 1) == last.b && WordOf(digest, 2) == last.c
       && WordOf(digest, 3) == last.d && WordOf(digest, 4) == last.e && WordOf(digest, 5) == last.f
       && WordOf(digest, 6) == last.g && WordOf(digest, 7) == last.h
  }

  lemma PaddedIsPadded(m: seq<Byte>)
    requires |m| < 0x2000_0000_0000_0000
    ensures IsPadded(m, Padded(m))
  {
    hide Padded, FromBigEndian;
    PaddedSize(m);
    PaddedBytes(m);
    PaddedTailIsLength(m);
  }

  lemma PaddedSize(m: seq<Byte>)
    ensures |m| + 9 <= |Padded(m)| < |m| + 9 + 64 && |Padded(m)| % 64 == 0
  {
    hide Padded;
    PaddedLength(m);
  }

  lemma PaddedBytes(m: seq<Byte>)
    ensures var p := Padded(m);
            |m| + 9 <= |p| && p[..|m|] == m && p[|m|] == 0x80 && forall i :: |m| < i < |p| - 8 ==> p[i] == 0
  {
    hide BigEndian;
    PaddedSize(m);
    ZeroBytes(|m|);
    var p, z := Padded(m), seq((55 - |m|) % 64, _ => 0);
    forall i | |m| < i < |p| - 8
      ensures p[i] == 0
    {
      assert |p| == |m| + 1 + |z| + 8 && p[i] == z[i - |m| - 1];
    }
  }

  lemma PaddedTailIsLength(m: seq<Byte>)
    requires |m| < 0x2000_0000_0000_0000
    ensures |Padded(m)| >= 8 && FromBigEndian(Padded(m)[|Padded(m)| - 8..]) == 8 * |m|
  {
    assert Pow256(8) == 0x1_0000_0000_0000_0000 by {
      assert Pow256(4) == 0x1_0000_0000;
    }
    hide BigEndian, FromBigEndian, ZeroBits, Pow256;
    assert Padded(m)[|Padded(m)| - 8..] == BigEndian(8 * |m|, 8);
    DecodeEncode(8 * |m|, 8);
  }

  lemma DigestWords(v: Vars)
    ensures var d := Digest(v);
            && WordOf(d, 0) == v.a && WordOf(d, 1) == v.b && WordOf(d, 2) == v.c && WordOf(d, 3) == v.d
            && WordOf(d, 4) == v.e && WordOf(d, 5) == v.f && WordOf(d, 6) == v.g && WordOf(d, 7) == v.h
  {
    Pow256Of4();
    hide BigEndian, FromBigEndian, Pow256;
    var d := Digest(v);
    assert d[0..4] == BigEndian(v.a, 4) && d[4..8] == BigEndian(v.b, 4) && d[8..12] == BigEndian(v.c, 4);
    assert d[12..16] == BigEndian(v.d, 4) && d[16..20] == BigEndian(v.e, 4) && d[20..24] == BigEndian(v.f, 4);
    assert d[24..28] == BigEndian(v.g, 4) && d[28..32] == BigEndian(v.h, 4);
    DecodeEncode(v.a, 4);
    DecodeEncode(v.b, 4);
    DecodeEncode(v.c, 4);
    DecodeEncode(v.d, 4);
    DecodeEncode(v.e, 4);
    DecodeEncode(v.f, 4);
    DecodeEncode(v.g, 4);
    DecodeEncode(v.h, 4);
  }

  lemma NextBlock(p: seq<Byte>, i: nat)
    requires 64 * i + 64 <= |p|
    ensures HashBlocks(p, i + 1) == Compress(HashBlocks(p, i), p[64 * i..64 * i + 64])
  {
    hide Compress;
  }

  lemma BlocksCompress(p: seq<Byte>, i: nat)
    requires 64 * i + 64 <= |p|
    ensures Compresses(HashBlocks(p, i), p[64 * i..64 * i + 64], HashBlocks(p, i + 1))
  {
    hide *;
    var w, v := CompressIsCompression(HashBlocks(p, i), p[64 * i..64 * i + 64]);
    NextBlock(p, i);
    CompressesBy(HashBlocks(p, i), p[64 * i..64 * i + 64], w, v, HashBlocks(p, i + 1));
  }

  lemma CompressesBy(hash: Vars, block: seq<Byte>, w: seq<Word>, v: seq<Vars>, result: Vars)
    requires IsCompression(hash, block, w, v, result)
    ensures Compresses(hash, block, result)
  {
    hide IsCompression;
  }

  lemma DigestOfBlocks(m: seq<Byte>)
    ensures |Padded(m)| % 64 == 0 && Sha256(m) == Digest(HashBlocks(Padded(m), |Padded(m)| / 64))
    ensures HashBlocks(Padded(m), 0) == H0
  {
    hide Padded, Digest, Compress;
    PaddedLength(m);
  }

  /** The digest of a message meets the equations of the standard on its padded form. */
  lemma DigestMeetsStandard(m: seq<Byte>) returns (p: seq<Byte>, hashes: seq<Vars>)
    requires |m| < 0x2000_0000_0000_0000
    ensures IsPadded(m, p) && IsHash(p, hashes, Sha256(m))
  {
    hide IsPadded, Padded, Compresses, Digest, WordOf, HashBlocks, Sha256;
    p := Padded(m);
    PaddedIsPadded(m);
    DigestOfBlocks(m);
    var n := |p| / 64;
    hashes := seq(n + 1, i requires 0 <= i < n + 1 => HashBlocks(p, i));
    forall i | 0 <= i < n
      ensures CompressesAt(p, hashes, i)
    {
      BlocksCompress(p, i);
    }
    DigestWords(hashes[n]);
  }
}
