/**
 SHA-256 as it is computed in place: a message schedule array, a state shifted one word at a time, a deferred last
 block.
 */
module Sha256 {
  import opened Wrappers
  import opened Fips180

  /** The eight words of a state array. */
  function VarsOf(s: seq<Word>): Vars
    requires |s| == 8
  {
    Vars(s[0], s[1], s[2], s[3], s[4], s[5], s[6], s[7])
  }

  lemma PlusComm(a: Word, b: Word)
    ensures Plus(a, b) == Plus(b, a)
  {}

  lemma PlusLaws(a: Word, b: Word, c: Word)
    ensures Plus(a, b) == Plus(b, a) && Plus(Plus(a, b), c) == Plus(a, Plus(b, c))
  {
    assert Plus(Plus(a, b), c) == (a + b + c) % 0x1_0000_0000;
  }

  lemma PlusInAnyOrder(a: Word, b: Word, c: Word, d: Word)
    ensures Plus(Plus(Plus(a, b), c), d) == Plus(Plus(Plus(d, c), b), a)
  {
    PlusLaws(a, b, c);
    PlusLaws(Plus(a, b), c, d);
    PlusLaws(Plus(d, c), b, a);
    PlusLaws(c, d, a);
    PlusLaws(a, b, d);
    PlusLaws(Plus(a, b), Plus(c, d), a);
    hide Plus;
  }

  /** The loop body of lines 61-77, on an array of eight words. */
  method ShiftRound(st: array<Word>, k: Word, w: Word)
    requires st.Length == 8
    modifies st
    ensures VarsOf(st[..]) == Round(VarsOf(old(st[..])), k, w)
  {
    hide Plus, BigSigma0, BigSigma1, Ch, Maj;
    var ch := Ch(st[4], st[5], st[6]);
    var maj := Maj(st[0], st[1], st[2]);
    var s0 := BigSigma0(st[0]);
    var s1 := BigSigma1(st[4]);
    var t0 := Plus(Plus(Plus(Plus(st[7], s1), ch), k), w);
    var t1 := Plus(s0, maj);
    st[7] := st[6];
    st[6] := st[5];
    st[5] := st[4];
    st[4] := Plus(st[3], t0);
    st[3] := st[2];
    st[2] := st[1];
    st[1] := st[0];
    st[0] := Plus(t0, t1);
  }

  /** The bytes of a word as they lie in memory. */
  function InMemory(littleEndian: bool, w: Word): (bytes: seq<Byte>)
    ensures |bytes| == 4
  {
    var b := BigEndian(w, 4);
    if littleEndian then [b[3], b[2], b[1], b[0]] else b
  }

  /** `to_be`: swap the bytes of a word on a little-endian machine only. */
  function ToBe(littleEndian: bool, w: Word): Word {
    Pow256Of4();
    var b := BigEndian(w, 4);
    if littleEndian then FromBigEndian([b[3], b[2], b[1], b[0]]) else w
  }

  lemma ToBeInMemory(littleEndian: bool, w: Word)
    ensures InMemory(littleEndian, ToBe(littleEndian, w)) == BigEndian(w, 4)
  {
    var b := BigEndian(w, 4);
    EncodeDecode([b[3], b[2], b[1], b[0]]);
  }

  /** How the padding continues a message whose first blocks are already hashed. */
  lemma PaddedTail(head: seq<Byte>, c: nat, tail: seq<Byte>)
    requires |head| == 64 * c && |tail| <= 64
    ensures Padded(head + tail) == head +
              (tail + [0x80] + seq(if |tail| < 56 then 55 - |tail| else 119 - |tail|, _ => 0) +
               BigEndian(512 * c + 8 * |tail|, 8))
  {
    hide BigEndian, ZeroBits;
    var n := |tail|;
    ZeroBytes(64 * c + n);
    var z := if n < 56 then 55 - n else 119 - n;
    assert 55 - (64 * c + n) == 64 * (if n < 56 then 0 - c else 0 - c - 1) + z;
    assert (55 - (64 * c + n)) % 64 == z;
  }

  class Sha256 {
    const state: array<Word>
    var completedDataBlocks: nat
    const pending: array<Byte>
    var numPending: nat
    /** The blocks given to `DealOne` so far, one after the other, and how many. */
    ghost var fed: seq<Byte>
    ghost var count: nat

    ghost predicate Valid()
      reads this, state
    {
      && state.Length == 8 && pending.Length == 64 && numPending <= 64
      && |fed| == 64 * count && VarsOf(state[..]) == HashBlocks(fed, count)
    }

    constructor Default()
      ensures Valid() && fed == [] && count == 0 && completedDataBlocks == 0 && numPending == 0
      ensures fresh(state) && fresh(pending) && forall j :: 0 <= j < 64 ==> pending[j] == 0
    {
      state := new Word[8] [0x6a09e667, 0xbb67ae85, 0x3c6ef372, 0xa54ff53a, 0x510e527f, 0x9b05688c, 0x1f83d9ab, 0x5be0cd19];
      completedDataBlocks := 0;
      pending := new Byte[64](_ => 0);
      numPending := 0;
      fed, count := [], 0;
    }

    /** Lines 47-57: the message schedule. */
    method MessageSchedule(data: seq<Byte>) returns (w: array<Word>)
      requires |data| == 64
      ensures fresh(w) && w.Length == 64 && forall j :: 0 <= j < 64 ==> w[j] == Schedule(data, j)
    {
      hide Plus, SmallSigma0, SmallSigma1, WordAt;
      w := new Word[64](_ => 0);
      for i := 0 to 16
        invariant forall j :: 0 <= j < i ==> w[j] == Schedule(data, j)
      {
        w[i] := WordAt(data, i);
      }
      for i := 16 to 64
        invariant forall j :: 0 <= j < i ==> w[j] == Schedule(data, j)
      {
        var s0 := SmallSigma0(w[i - 15]);
        var s1 := SmallSigma1(w[i - 2]);
        PlusInAnyOrder(w[i - 16], s0, w[i - 7], s1);
        w[i] := Plus(Plus(Plus(w[i - 16], s0), w[i - 7]), s1);
      }
    }

    /** One block: the state becomes the next hash value of the standard. */
    method DealOne(data: seq<Byte>)
      requires state.Length == 8 && |data| == 64
      modifies state
      ensures VarsOf(state[..]) == Compress(VarsOf(old(state[..])), data)
    {
      hide Plus, Round, Schedule;
      var w := MessageSchedule(data);
      var st := new Word[8](i requires 0 <= i < 8 reads this, state => state[i]);
      for i := 0 to |K|
        invariant VarsOf(st[..]) == Rounds(VarsOf(old(state[..])), data, i)
        invariant state[..] == old(state[..]) && forall j :: 0 <= j < 64 ==> w[j] == Schedule(data, j)
      {
        ShiftRound(st, K[i], w[i]);
      }
      ghost var v := VarsOf(st[..]);
      for i := 0 to 8
        invariant VarsOf(st[..]) == v
        invariant forall j :: 0 <= j < 8 ==> state[j] == if j < i then Plus(st[j], old(state[j])) else old(state[j])
      {
        PlusComm(state[i], st[i]);
        state[i] := Plus(state[i], st[i]);
      }
    }

    /** `DealOne` on the next block of the message. */
    method Feed(data: seq<Byte>)
      requires Valid() && |data| == 64
      modifies state, this`fed, this`count
      ensures Valid() && fed == old(fed) + data && count == old(count) + 1
    {
      hide Compress, VarsOf;
      HashPrefix(fed, fed + data, count);
      assert (fed + data)[64 * count..64 * (count + 1)] == data;
      DealOne(data);
      fed, count := fed + data, count + 1;
    }

    /**
     Hash all blocks of `data` but the last, which may be a whole one, and keep that for later. Without any data
     the block count of line 93 falls below zero, and the call panics.
    */
    method DealBlock(data: seq<Byte>) returns (ok: bool)
      requires Valid() && completedDataBlocks == count
      modifies this, state, pending
      ensures ok <==> |data| > 0
      ensures ok ==> Valid() && completedDataBlocks == count && 0 < numPending
      ensures ok ==> fed + pending[..numPending] == old(fed) + data
      ensures ok ==> forall j :: numPending <= j < 64 ==> pending[j] == old(pending[j])
    {
      hide HashBlocks, VarsOf;
      var offset := 0;
      var len := |data|;
      var blockNum := len / 64;
      var remainNum := len % 64;
      if remainNum == 0 {
        blockNum := blockNum - 1;
        remainNum := remainNum + 64;
      }
      if blockNum < 0 {
        return false;
      }
      for i := 0 to blockNum
        invariant Valid() && completedDataBlocks == count && offset == 64 * i
        invariant fed == old(fed) + data[..offset]
        invariant forall j :: 0 <= j < 64 ==> pending[j] == old(pending[j])
      {
        assert data[..offset + 64] == data[..offset] + data[offset..offset + 64];
        Feed(data[offset..offset + 64]);
        completedDataBlocks := completedDataBlocks + 1;
        offset := offset + 64;
      }
      Keep(data[offset..]);
      assert data[..offset] + data[offset..] == data;
      return true;
    }

    /** The last bytes of the data are kept for `DealRemain`. */
    method Keep(data: seq<Byte>)
      requires Valid() && |data| <= 64
      modifies pending, this`numPending
      ensures Valid() && numPending == |data| && pending[..numPending] == data
      ensures forall j :: numPending <= j < 64 ==> pending[j] == old(pending[j])
    {
      hide HashBlocks, VarsOf;
      ghost var words := state[..];
      numPending := |data|;
      forall j | 0 <= j < numPending {
        pending[j] := data[j];
      }
      assert state[..] == words;
    }

    /** The block of lines 112-114, when the length still fits behind the pending bytes. */
    method OneBlock(bits: nat) returns (block: array<Byte>)
      requires pending.Length == 64 && numPending < 56
      requires forall j :: numPending <= j < 64 ==> pending[j] == 0
      ensures fresh(block) && block.Length == 64
      ensures block[..] == pending[..numPending] + [0x80] + seq(55 - numPending, _ => 0) + BigEndian(bits, 8)
    {
      block := new Byte[64](i requires 0 <= i < 64 reads this, pending => pending[i]);
      block[numPending] := 0x80;
      var length := BigEndian(bits, 8);
      forall j | 0 <= j < 8 {
        block[56 + j] := length[j];
      }
    }

    /** The two blocks of lines 117-120, when it does not. */
    method TwoBlocks(bits: nat) returns (blocks: array<Byte>)
      requires pending.Length == 64 && 56 <= numPending <= 64
      requires forall j :: numPending <= j < 64 ==> pending[j] == 0
      ensures fresh(blocks) && blocks.Length == 128
      ensures blocks[..] == pending[..numPending] + [0x80] + seq(119 - numPending, _ => 0) + BigEndian(bits, 8)
    {
      blocks := new Byte[128](_ => 0);
      forall j | 0 <= j < 64 {
        blocks[j] := pending[j];
      }
      blocks[numPending] := 0x80;
      var length := BigEndian(bits, 8);
      forall j | 0 <= j < 8 {
        blocks[120 + j] := length[j];
      }
    }

    /**
     Pad and hash what is pending. Together with what was hashed before, the blocks are the padded message,
     `bits` is its length and does not overflow 64 bits, and the bytes returned are the digest, on a machine of
     either byte order.
    */
    method DealRemain(littleEndian: bool) returns (digest: seq<Byte>)
      requires Valid() && completedDataBlocks == count
      requires 512 * completedDataBlocks + 8 * numPending < 0x1_0000_0000_0000_0000
      requires forall j :: numPending <= j < 64 ==> pending[j] == 0
      modifies this, state
      ensures fed == Padded(old(fed) + old(pending[..numPending]))
      ensures |fed| == 64 * count && digest == Digest(HashBlocks(fed, count))
    {
      hide HashBlocks, VarsOf, Digest, Padded, BigEndian;
      var bits := completedDataBlocks * 512 + numPending * 8;
      PaddedTail(fed, count, pending[..numPending]);
      if numPending < 56 {
        var block := OneBlock(bits);
        Feed(block[..]);
      } else {
        var blocks := TwoBlocks(bits);
        ghost var head := fed;
        Feed(blocks[..64]);
        Feed(blocks[64..]);
        assert head + blocks[..64] + blocks[64..] == head + blocks[..];
      }
      digest := Output(littleEndian);
    }

    /** Lines 124-127: make each word big-endian in memory, then read the memory. */
    method Output(littleEndian: bool) returns (digest: seq<Byte>)
      requires state.Length == 8
      modifies state
      ensures digest == Digest(VarsOf(old(state[..])))
    {
      for i := 0 to 8
        invariant forall j :: 0 <= j < 8 ==>
                    state[j] == if j < i then ToBe(littleEndian, old(state[j])) else old(state[j])
      {
        state[i] := ToBe(littleEndian, state[i]);
      }
      forall j | 0 <= j < 8 ensures InMemory(littleEndian, state[j]) == BigEndian(old(state[j]), 4) {
        ToBeInMemory(littleEndian, old(state[j]));
      }
      digest := InMemory(littleEndian, state[0]) + InMemory(littleEndian, state[1]) +
                InMemory(littleEndian, state[2]) + InMemory(littleEndian, state[3]) +
                InMemory(littleEndian, state[4]) + InMemory(littleEndian, state[5]) +
                InMemory(littleEndian, state[6]) + InMemory(littleEndian, state[7]);
    }
  }

  /** `Sha256::digest`: it panics on the empty message, and on any other computes the hash of the standard. */
  method DigestOf(data: seq<Byte>, littleEndian: bool) returns (digest: Option<seq<Byte>>)
    requires |data| < 0x2000_0000_0000_0000
    ensures digest == if data == [] then None else Some(Fips180.Sha256(data))
  {
    hide HashBlocks, Padded, Digest, VarsOf;
    var sha := new Sha256.Default();
    var ok := sha.DealBlock(data);
    if !ok {
      return None;
    }
    assert sha.fed + sha.pending[..sha.numPending] == data;
    var bytes := sha.DealRemain(littleEndian);
    assert sha.fed == Padded(data) && |Padded(data)| / 64 == sha.count;
    return Some(bytes);
  }
}
