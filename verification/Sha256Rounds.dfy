/** The rounds and the message schedule lose nothing: both run backwards. */
module Sha256Rounds {
  import opened Fips180

  function Minus(x: Word, y: Word): Word {
    (x - y) % 0x1_0000_0000
  }

  lemma MinusPlus(x: Word, y: Word)
    ensures Minus(Plus(x, y), y) == x && Plus(Minus(x, y), y) == x
  {}

  lemma PlusCommutes(x: Word, y: Word)
    ensures Plus(x, y) == Plus(y, x)
  {}

  /** One round backwards. */
  function Unround(v: Vars, k: Word, w: Word): Vars {
    var t2 := Plus(BigSigma0(v.b), Maj(v.b, v.c, v.d));
    var t1 := Minus(v.a, t2);
    Vars(v.b, v.c, v.d, Minus(v.e, t1), v.f, v.g, v.h,
         Minus(Minus(Minus(Minus(t1, w), k), Ch(v.f, v.g, v.h)), BigSigma1(v.f)))
  }

  lemma UnroundRound(v: Vars, k: Word, w: Word)
    ensures Unround(Round(v, k, w), k, w) == v
  {
    hide Plus, Minus, BigSigma0, BigSigma1, Ch, Maj;
    var s, c := BigSigma1(v.e), Ch(v.e, v.f, v.g);
    var t2 := Plus(BigSigma0(v.a), Maj(v.a, v.b, v.c));
    var x1 := Plus(v.h, s);
    var x2 := Plus(x1, c);
    var x3 := Plus(x2, k);
    var t1 := Plus(x3, w);
    MinusPlus(t1, t2);
    MinusPlus(v.d, t1);
    MinusPlus(x3, w);
    MinusPlus(x2, k);
    MinusPlus(x1, c);
    MinusPlus(v.h, s);
  }

  lemma RoundUnround(v: Vars, k: Word, w: Word)
    ensures Round(Unround(v, k, w), k, w) == v
  {
    hide Plus, Minus, BigSigma0, BigSigma1, Ch, Maj;
    var s, c := BigSigma1(v.f), Ch(v.f, v.g, v.h);
    var t2 := Plus(BigSigma0(v.b), Maj(v.b, v.c, v.d));
    var t1 := Minus(v.a, t2);
    var x3 := Minus(t1, w);
    var x2 := Minus(x3, k);
    var x1 := Minus(x2, c);
    MinusPlus(v.a, t2);
    MinusPlus(v.e, t1);
    MinusPlus(t1, w);
    MinusPlus(x3, k);
    MinusPlus(x2, c);
    MinusPlus(x1, s);
  }

  /** The first `t` rounds backwards, the last one first. */
  function Unrounds(v: Vars, block: seq<Byte>, t: nat): Vars
    requires |block| == 64 && t <= |K|
    decreases t
  {
    if t == 0 then v else Unrounds(Unround(v, K[t - 1], Schedule(block, t - 1)), block, t - 1)
  }

  /** For any block, any number of rounds is a bijection on working variables, with `Unrounds` as its inverse. */
  lemma {:induction false} RoundsAreBijective(v: Vars, block: seq<Byte>, t: nat)
    requires |block| == 64 && t <= |K|
    ensures Unrounds(Rounds(v, block, t), block, t) == v
    ensures Rounds(Unrounds(v, block, t), block, t) == v
    decreases t
  {
    hide Round, Unround, Schedule;
    if t > 0 {
      var k, w := K[t - 1], Schedule(block, t - 1);
      UnroundRound(Rounds(v, block, t - 1), k, w);
      RoundsAreBijective(v, block, t - 1);
      RoundUnround(v, k, w);
      RoundsAreBijective(Unround(v, k, w), block, t - 1);
    }
  }

  lemma RoundsAreInjective(u: Vars, v: Vars, block: seq<Byte>)
    requires |block| == 64 && Rounds(u, block, |K|) == Rounds(v, block, |K|)
    ensures u == v
  {
    hide Rounds;
    RoundsAreBijective(u, block, |K|);
    RoundsAreBijective(v, block, |K|);
  }

  /** The schedule words of two blocks agree at the positions from `lo` up to `hi`. */
  ghost predicate Agree(b: seq<Byte>, b': seq<Byte>, lo: nat, hi: nat)
    requires |b| == 64 == |b'|
  {
    forall t :: lo <= t < hi ==> Schedule(b, t) == Schedule(b', t)
  }

  /** The word before a run of sixteen, from the run. */
  lemma WordBefore(b: seq<Byte>, t: nat)
    requires |b| == 64 && t > 0
    ensures Schedule(b, t - 1) ==
              Minus(Schedule(b, t + 15),
                    Plus(Plus(SmallSigma1(Schedule(b, t + 13)), Schedule(b, t + 8)), SmallSigma0(Schedule(b, t))))
  {
    hide Plus, Minus, SmallSigma0, SmallSigma1;
    var x := Plus(Plus(SmallSigma1(Schedule(b, t + 13)), Schedule(b, t + 8)), SmallSigma0(Schedule(b, t)));
    assert Schedule(b, t + 15) == Plus(x, Schedule(b, t - 1));
    PlusCommutes(x, Schedule(b, t - 1));
    MinusPlus(Schedule(b, t - 1), x);
  }

  lemma {:induction false} AgreeBefore(b: seq<Byte>, b': seq<Byte>, t: nat)
    requires |b| == 64 == |b'| && Agree(b, b', t, t + 16)
    ensures Agree(b, b', 0, t + 16)
    decreases t
  {
    hide Schedule, Plus, Minus, SmallSigma0, SmallSigma1;
    if t > 0 {
      WordBefore(b, t);
      WordBefore(b', t);
      AgreeBefore(b, b', t - 1);
    }
  }

  lemma {:induction false} WordsDetermineBlock(b: seq<Byte>, b': seq<Byte>)
    requires |b| == 64 == |b'| && Agree(b, b', 0, 16)
    ensures b == b'
  {
    forall i | 0 <= i < 64
      ensures b[i] == b'[i]
    {
      var j := i / 4;
      var x, x' := b[4 * j..4 * j + 4], b'[4 * j..4 * j + 4];
      assert Schedule(b, j) == Schedule(b', j);
      EncodeDecode(x);
      EncodeDecode(x');
      assert x[i - 4 * j] == b[i] && x'[i - 4 * j] == b'[i];
    }
  }

  /** Any sixteen consecutive words of the schedule determine the block, and so all the others. */
  lemma SixteenWordsDetermineAll(b: seq<Byte>, b': seq<Byte>, t: nat)
    requires |b| == 64 == |b'| && Agree(b, b', t, t + 16)
    ensures b == b'
  {
    hide Schedule;
    AgreeBefore(b, b', t);
    WordsDetermineBlock(b, b');
  }
}
