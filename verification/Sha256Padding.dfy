/** The padding of section 5.1.1 adds the least it can, and can be undone. */
module Sha256Padding {
  import opened Wrappers
  import opened Fips180

  /** `ZeroBits` is a solution of the standard's congruence, and the least one. */
  lemma ZeroBitsIsLeast(len: nat, k: nat)
    ensures (len + 1 + ZeroBits(len)) % 512 == 448
    ensures (len + 1 + k) % 512 == 448 ==> ZeroBits(len) <= k
  {
    var z, q := ZeroBits(len), (447 - len) / 512;
    assert len + 1 + z == 512 * (0 - q) + 448;
    if (len + 1 + k) % 512 == 448 {
      assert k - z == 512 * ((len + 1 + k) / 512 + q);
    }
  }

  /** Read the length from the last eight bytes and cut the message off. */
  function Unpad(p: seq<Byte>): Option<seq<Byte>> {
    if |p| < 8 then None
    else
      var bits := FromBigEndian(p[|p| - 8..]);
      if bits % 8 == 0 && bits / 8 <= |p| then Some(p[..bits / 8]) else None
  }

  lemma PadUnpad(m: seq<Byte>)
    requires |m| < 0x2000_0000_0000_0000
    ensures Unpad(Padded(m)) == Some(m)
  {
    var p := Padded(m);
    assert p[|p| - 8..] == BigEndian(8 * |m|, 8);
    assert Pow256(8) == 0x1_0000_0000_0000_0000 by {
      assert Pow256(4) == 0x1_0000_0000;
    }
    DecodeEncode(8 * |m|, 8);
    assert p[..|m|] == m;
  }

  /** Two messages with the same blocks are the same message. */
  lemma PaddingIsInjective(m: seq<Byte>, m': seq<Byte>)
    requires |m| < 0x2000_0000_0000_0000 && |m'| < 0x2000_0000_0000_0000
    requires Padded(m) == Padded(m')
    ensures m == m'
  {
    PadUnpad(m);
    PadUnpad(m');
  }
}
