/** The search for a counter whose digest starts with 31 zero bits, by four workers. */
module CounterSearch {
  import opened Wrappers
  import opened Fips180
  import Sha256

  const BASE: nat := 0xd72f345a
  const TWO_TO_THE_128: nat := 0x1_0000_0000_0000_0000_0000_0000_0000_0000

  const TWO_TO_THE_126: nat := 0x4000_0000_0000_0000_0000_0000_0000_0000

  /** `check_zero`, line 138. */
  predicate CheckZero(s: seq<Byte>)
    requires |s| >= 4
  {
    s[0] == 0 && s[1] == 0 && s[2] == 0 && (s[3] as bv8) & 0xFE == 0
  }

  lemma LastBit(b: Byte)
    ensures (b as bv8) & 0xFE == 0 <==> b <= 1
  {
    var v := b as bv8;
    assert v & 0xFE == 0 <==> v <= 1;
  }

  lemma FourBytes(n: Word)
    ensures var b := BigEndian(n, 4);
            n as int == 0x100_0000 * (b[0] as int) + 0x1_0000 * (b[1] as int) + 0x100 * (b[2] as int) + b[3] as int
  {
    var n1: nat := n / 256;
    var n2: nat := n1 / 256;
    var n3: nat := n2 / 256;
    assert BigEndian(n3, 1) == BigEndian(n3 / 256, 0) + [n3 % 256];
    assert BigEndian(n2, 2) == BigEndian(n3, 1) + [n2 % 256];
    assert BigEndian(n1, 3) == BigEndian(n2, 2) + [n1 % 256];
    assert BigEndian(n, 4) == BigEndian(n1, 3) + [n % 256];
  }

  /** `check_zero` accepts a digest exactly when the first word of the hash value is 0 or 1. */
  lemma CheckZeroIff(v: Vars)
    ensures CheckZero(Digest(v)) <==> v.a <= 1
  {
    hide BigEndian;
    var b := BigEndian(v.a, 4);
    FourBytes(v.a);
    LastBit(b[3]);
    assert Digest(v)[..4] == b;
  }

  /** The sixteen bytes of a counter. */
  function Source(counter: nat): seq<Byte> {
    BigEndian(counter, 16)
  }

  /** A counter is hashed as the sixteen bytes of a 128-bit integer, the most significant first. */
  lemma SourceIsCounter(counter: nat)
    requires counter < TWO_TO_THE_128
    ensures |Source(counter)| == 16 && FromBigEndian(Source(counter)) == counter
  {
    Pow256Of16();
    DecodeEncode(counter, 16);
  }

  lemma Pow256Of16()
    ensures Pow256(16) == TWO_TO_THE_128
  {
    assert Pow256(4) == 0x1_0000_0000;
    assert Pow256(8) == 0x1_0000_0000_0000_0000;
    assert Pow256(12) == 0x1_0000_0000_0000_0000_0000_0000;
  }

  /** A counter passes exactly when the digest of its sixteen bytes does. */
  lemma PassesIff(counter: nat, bytes: seq<Byte>)
    requires |bytes| == 16 && FromBigEndian(bytes) == counter
    ensures Passes(counter) <==> CheckZero(Fips180.Sha256(bytes))
  {
    hide Fips180.Sha256, CheckZero, FromBigEndian;
    EncodeDecode(bytes);
  }

  predicate Passes(counter: nat) {
    CheckZero(Fips180.Sha256(Source(counter)))
  }

  /** The counters of worker `i`. */
  predicate Tries(i: nat, counter: nat) {
    i + BASE <= counter && (counter - BASE) % 4 == i
  }

  /** Every counter from the base up is tried by one worker, and only one. */
  lemma WorkersPartition(counter: nat)
    ensures counter >= BASE <==> exists i :: 0 <= i < 4 && Tries(i, counter)
    ensures forall i, j :: 0 <= i < j < 4 ==> !(Tries(i, counter) && Tries(j, counter))
  {
    if counter >= BASE {
      assert Tries((counter - BASE) % 4, counter);
    }
  }

  /** The first counter of worker `i` that passes. */
  ghost predicate FirstHit(i: nat, counter: nat) {
    && Tries(i, counter) && Passes(counter)
    && forall c: nat :: Tries(i, c) && c < counter ==> !Passes(c)
  }

  /** The counters of worker `i` in the order of its tries, the second try of the first one left out; they wrap round. */
  function Tried(i: nat, m: nat): nat {
    (i + BASE + 4 * m) % TWO_TO_THE_128
  }

  /** Try `m` is the first that passes. */
  ghost predicate FirstPass(i: nat, m: nat) {
    Passes(Tried(i, m)) && forall k: nat :: k < m ==> !Passes(Tried(i, k))
  }

  /** Before the counter wraps round, the first try that passes is the first counter of the worker that does. */
  lemma FirstPassIsFirstHit(i: nat, m: nat)
    requires i < 4 && i + BASE + 4 * m < TWO_TO_THE_128
    ensures FirstPass(i, m) <==> FirstHit(i, i + BASE + 4 * m)
  {
    hide Passes;
    assert forall k: nat :: k <= m ==> Tried(i, k) == i + BASE + 4 * k;
    if FirstPass(i, m) {
      forall c: nat | Tries(i, c) && c < i + BASE + 4 * m
        ensures !Passes(c)
      {
        var k := (c - BASE - i) / 4;
        assert c == i + BASE + 4 * k;
        assert !Passes(Tried(i, k));
      }
    }
    if FirstHit(i, i + BASE + 4 * m) {
      forall k: nat | k < m
        ensures !Passes(Tried(i, k))
      {
        assert Tries(i, i + BASE + 4 * k);
      }
    }
  }

  lemma TriesRepeat(i: nat, m: nat, q: nat)
    ensures Tried(i, m + TWO_TO_THE_126 * q) == Tried(i, m)
  {
    assert i + BASE + 4 * (m + TWO_TO_THE_126 * q) == (i + BASE + 4 * m) + TWO_TO_THE_128 * q;
  }

  /** If any try of the worker passes, one of its first 2^126 does. */
  lemma SomePassIff(i: nat)
    ensures (exists m: nat :: Passes(Tried(i, m))) <==> exists m: nat :: m < TWO_TO_THE_126 && Passes(Tried(i, m))
  {
    hide Passes, Tried;
    if m: nat :| Passes(Tried(i, m)) {
      TriesRepeat(i, m % TWO_TO_THE_126, m / TWO_TO_THE_126);
      assert Passes(Tried(i, m % TWO_TO_THE_126));
    }
  }

  lemma NextTry(i: nat, m: nat)
    ensures (Tried(i, m) + 4) % TWO_TO_THE_128 == Tried(i, m + 1)
  {
  }

  /**
   The loop of one worker, lines 167-177, for at most `limit` iterations. Its source is that of the first try that
   passes; none is given only when none of the tries made passes, so the loop ends if and only if some try passes.
  */
  method Worker(i: nat, littleEndian: bool, limit: nat) returns (found: Option<seq<Byte>>)
    requires i < 4
    ensures found.Some? ==>
              && |found.value| == 16 && CheckZero(Fips180.Sha256(found.value))
              && exists m: nat :: m <= limit && FirstPass(i, m) && FromBigEndian(found.value) == Tried(i, m)
    ensures found.None? ==> forall m: nat :: m == 0 || m < limit ==> !Passes(Tried(i, m))
  {
    hide Fips180.Sha256, BigEndian, FromBigEndian, CheckZero, Tried;
    var cnt := i + BASE;
    FirstTry(i);
    var src := Source(cnt);
    var digest := Sha256.DigestOf(src, littleEndian);
    var res := digest.value;
    var iterations := 0;
    ghost var m := 0;
    while !CheckZero(res)
      invariant m == (if iterations == 0 then 0 else iterations - 1) && iterations <= limit
      invariant cnt == Tried(i, iterations)
      invariant src == Source(Tried(i, m)) && res == Fips180.Sha256(src)
      invariant forall k: nat :: k < m ==> !Passes(Tried(i, k))
      decreases limit - iterations
    {
      assert !Passes(Tried(i, m));
      if iterations == limit {
        return None;
      }
      NextTry(i, iterations);
      src := Source(cnt);
      digest := Sha256.DigestOf(src, littleEndian);
      res := digest.value;
      cnt := (cnt + 4) % TWO_TO_THE_128;
      m := iterations;
      iterations := iterations + 1;
    }
    assert FirstPass(i, m);
    TriedFits(i, m);
    SourceIsCounter(Tried(i, m));
    return Some(src);
  }

  lemma TriedFits(i: nat, m: nat)
    ensures Tried(i, m) < TWO_TO_THE_128
  {
  }

  /** The first tries of the four workers, and the distance to the second ones. */
  lemma FirstTries()
    ensures Tried(0, 0) == 0xd72f345a && Tried(1, 0) == 0xd72f345b && Tried(2, 0) == 0xd72f345c
    ensures Tried(3, 0) == 0xd72f345d && Tried(0, 1) == 0xd72f345e
  {
  }

  lemma FirstTry(i: nat)
    requires i < 4
    ensures Tried(i, 0) == i + BASE
  {
  }
}
