/** When sorting by the opposite comparison gives the sorted list backwards, for comparisons that need not be orders. */
module MylsBackwards {
  import opened MylsOrder
  import opened MylsStability
  import opened MylsReverse
  import opened MylsWalks

  /** The first `j` elements of `r` are before `x` and the rest is behind it; `c` is the sign of a comparison. */
  ghost predicate SplitAt<T(!new)>(c: (T, T) -> int, r: seq<T>, x: T, j: nat) {
    && j <= |r|
    && (forall k :: 0 <= k < j ==> c(r[k], x) < 0)
    && (forall k :: j <= k < |r| ==> c(r[k], x) > 0)
  }

  ghost predicate Splits<T(!new)>(c: (T, T) -> int, r: seq<T>, x: T) {
    exists j :: SplitAt(c, r, x, j)
  }

  function Forward<T>(c: (T, T) -> int): (T, T) -> bool {
    (x, y) => c(x, y) > 0
  }

  function Backward<T>(c: (T, T) -> int): (T, T) -> bool {
    (x, y) => c(x, y) < 0
  }

  /** Where the walk down from the end stops is the only place at which `r` can split. */
  lemma SplitPlace<T(!new)>(c: (T, T) -> int, r: seq<T>, x: T, i: nat)
    requires Splits(c, r, x)
    requires i <= |r| && (i == 0 || c(r[i - 1], x) <= 0) && forall k :: i <= k < |r| ==> c(r[k], x) > 0
    ensures SplitAt(c, r, x, i)
  {
    var j: nat :| SplitAt(c, r, x, j);
  }

  lemma ReverseParts<T>(r: seq<T>, j: nat)
    requires j <= |r|
    ensures Reverse(r)[..|r| - j] == Reverse(r[j..]) && Reverse(r)[|r| - j..] == Reverse(r[..j])
  {
    hide Reverse;
    assert r == r[..j] + r[j..];
    ReverseConcat(r[..j], r[j..]);
  }

  lemma ReverseInserted<T>(r: seq<T>, x: T, j: nat)
    requires j <= |r|
    ensures Reverse(r[..j] + [x] + r[j..]) == Reverse(r)[..|r| - j] + [x] + Reverse(r)[|r| - j..]
  {
    ReverseParts(r, j);
    ReverseThree(r[..j], x, r[j..]);
  }

  lemma ReverseThree<T>(a: seq<T>, x: T, b: seq<T>)
    ensures Reverse(a + [x] + b) == Reverse(b) + [x] + Reverse(a)
  {
    assert Reverse([x]) == [x];
    hide Reverse;
    ReverseConcat(a + [x], b);
    ReverseConcat(a, [x]);
    assert Reverse(b) + ([x] + Reverse(a)) == Reverse(b) + [x] + Reverse(a);
  }

  /** One more element keeps the two sorted lists each other's reverse exactly when it splits the sorted elements. */
  lemma InsertBackwardsIff<T(!new)>(c: (T, T) -> int, r: seq<T>, x: T)
    requires x !in r
    ensures Insert(Backward(c), Reverse(r), x) == Reverse(Insert(Forward(c), r, x)) <==> Splits(c, r, x)
  {
    hide Insert, Reverse, Splits;
    var p, q := Forward(c), Backward(c);
    var i := InsertPlace(p, r, x);
    var k := InsertPlace(q, Reverse(r), x);
    ReverseInserted(r, x, i);
    if Insert(q, Reverse(r), x) == Reverse(Insert(p, r, x)) {
      assert x !in Reverse(r);
      SplitApart(Reverse(r), k, Reverse(r), |r| - i, x);
      WalkedBackIsSplit(c, r, x, i);
    }
    if Splits(c, r, x) {
      SplitPlace(c, r, x, i);
      InsertAt(q, Reverse(r), x, |r| - i);
    }
  }

  lemma WalkedBackIsSplit<T(!new)>(c: (T, T) -> int, r: seq<T>, x: T, i: nat)
    requires i <= |r| && forall k :: i <= k < |r| ==> c(r[k], x) > 0
    requires forall k :: |r| - i <= k < |r| ==> c(Reverse(r)[k], x) < 0
    ensures Splits(c, r, x)
  {
    hide Reverse;
    forall k | 0 <= k < i
      ensures c(r[k], x) < 0
    {
      assert Reverse(r)[|r| - 1 - k] == r[k];
    }
    assert SplitAt(c, r, x, i);
  }

  ghost predicate AllSplit<T(!new)>(c: (T, T) -> int, s: seq<T>) {
    forall i :: 0 <= i < |s| ==> Splits(c, Sort(Forward(c), s[..i]), s[i])
  }

  lemma AllSplitSnoc<T(!new)>(c: (T, T) -> int, s: seq<T>)
    requires s != []
    ensures var t, x := s[..|s| - 1], s[|s| - 1];
            AllSplit(c, s) <==> AllSplit(c, t) && Splits(c, Sort(Forward(c), t), x)
  {
    hide Splits, Sort;
    var t := s[..|s| - 1];
    assert forall i :: 0 <= i < |t| ==> t[..i] == s[..i] && t[i] == s[i];
    if AllSplit(c, t) && Splits(c, Sort(Forward(c), t), s[|s| - 1]) {
      forall i | 0 <= i < |s|
        ensures Splits(c, Sort(Forward(c), s[..i]), s[i])
      {
        if i < |t| { assert Splits(c, Sort(Forward(c), t[..i]), t[i]); }
      }
    }
    if AllSplit(c, s) {
      forall i | 0 <= i < |t|
        ensures Splits(c, Sort(Forward(c), t[..i]), t[i])
      {
        assert Splits(c, Sort(Forward(c), s[..i]), s[i]);
      }
    }
  }

  /** One list: the backward sort is the forward one reversed exactly when each element splits those sorted before it. */
  lemma {:induction false} SortBackwardsIff<T(!new)>(c: (T, T) -> int, s: seq<T>)
    requires Distinct(s)
    ensures Sort(Backward(c), s) == Reverse(Sort(Forward(c), s)) <==> AllSplit(c, s)
    decreases |s|
  {
    hide AllSplit, Splits, Reverse, Insert;
    if s == [] {
      NothingToSplit(c, s);
      return;
    }
    var t, x := s[..|s| - 1], s[|s| - 1];
    var r := Sort(Forward(c), t);
    DistinctPrefix(s);
    SortBackwardsIff(c, t);
    AllSplitSnoc(c, s);
    NotSortedIn(Forward(c), t, x);
    NotSortedIn(Backward(c), t, x);
    InsertBackwardsIff(c, r, x);
    if Sort(Backward(c), s) == Reverse(Sort(Forward(c), s)) {
      BackwardsBefore(c, Sort(Backward(c), t), r, x);
    }
  }

  lemma BackwardsBefore<T(!new)>(c: (T, T) -> int, a: seq<T>, r: seq<T>, x: T)
    requires x !in a && x !in r && Insert(Backward(c), a, x) == Reverse(Insert(Forward(c), r, x))
    ensures a == Reverse(r)
  {
    hide Insert, Reverse;
    var i := InsertPlace(Forward(c), r, x);
    ReverseInserted(r, x, i);
    var k := InsertPlace(Backward(c), a, x);
    assert x !in Reverse(r);
    SplitApart(a, k, Reverse(r), |r| - i, x);
  }

  lemma NothingToSplit<T(!new)>(c: (T, T) -> int, s: seq<T>)
    requires s == []
    ensures AllSplit(c, s) && Sort(Backward(c), s) == Reverse(Sort(Forward(c), s))
  {
  }

  // ---- All orders of a list.

  /** In a sorted list `x` can stand before `y`: it stayed before it, or `y` was there and moved behind it. */
  predicate CanPrecede<T>(c: (T, T) -> int, x: T, y: T) {
    c(x, y) < 0 || c(y, x) > 0
  }

  /** No two elements compare as equal, and no third element goes before the first and behind the second of two. */
  ghost predicate Consistent<T(!new)>(c: (T, T) -> int, s: seq<T>) {
    && (forall x, y :: x in s && y in s && x != y ==> c(x, y) != 0)
    && (forall x, y, z :: x in s && y in s && z in s && x != y && x != z && y != z && CanPrecede(c, x, y) ==>
          !(c(x, z) > 0 && c(y, z) < 0))
  }

  ghost predicate InLine<T(!new)>(c: (T, T) -> int, r: seq<T>) {
    forall k, l :: 0 <= k < l < |r| ==> r[k] != r[l] && CanPrecede(c, r[k], r[l])
  }

  lemma LineSplits<T(!new)>(c: (T, T) -> int, s: seq<T>, r: seq<T>, x: T)
    requires Consistent(c, s) && InLine(c, r) && x in s && x !in r && forall y :: y in r ==> y in s
    ensures Splits(c, r, x) && InLine(c, Insert(Forward(c), r, x))
  {
    hide Insert, CanPrecede;
    var j := InsertPlace(Forward(c), r, x);
    forall k | 0 <= k < j
      ensures c(r[k], x) < 0
    {
      assert r[k] in s && r[j - 1] in s && c(r[j - 1], x) <= 0;
      assert k < j - 1 ==> CanPrecede(c, r[k], r[j - 1]);
    }
    assert SplitAt(c, r, x, j);
    LineWith(c, r, x, j);
  }

  lemma LineWith<T(!new)>(c: (T, T) -> int, r: seq<T>, x: T, j: nat)
    requires InLine(c, r) && x !in r && SplitAt(c, r, x, j)
    ensures InLine(c, r[..j] + [x] + r[j..])
  {
    var t := r[..j] + [x] + r[j..];
    assert forall k :: 0 <= k < |t| ==> t[k] == if k < j then r[k] else if k == j then x else r[k - 1];
  }

  lemma {:induction false} ConsistentSplits<T(!new)>(c: (T, T) -> int, s: seq<T>, t: seq<T>)
    requires Consistent(c, s) && Distinct(t) && forall y :: y in t ==> y in s
    ensures AllSplit(c, t) && InLine(c, Sort(Forward(c), t))
    decreases |t|
  {
    hide Splits, Consistent, CanPrecede, Insert;
    if t == [] { return; }
    var u, x := t[..|t| - 1], t[|t| - 1];
    DistinctPrefix(t);
    ConsistentSplits(c, s, u);
    NotSortedIn(Forward(c), u, x);
    SortKeepsElements(Forward(c), u);
    SameElements(u, Sort(Forward(c), u));
    LineSplits(c, s, Sort(Forward(c), u), x);
    hide AllSplit, InLine;
    AllSplitSnoc(c, t);
  }

  /** Two elements that compare as equal, put first, are not reversed. */
  lemma EqualPairStays<T(!new)>(c: (T, T) -> int, s: seq<T>, x: T, y: T) returns (t: seq<T>)
    requires Distinct(s) && x in s && y in s && x != y && c(x, y) == 0
    ensures multiset(t) == multiset(s) && !AllSplit(c, t)
  {
    hide Sort;
    t := OrderFrom(s, [x, y]);
    assert [x, y][0] == t[0] && [x, y][1] == t[1];
    SortOne(Forward(c), x);
    assert t[..1] == [x];
    assert [x][0] == x;
    assert !Splits(c, [x], y);
    assert !Splits(c, Sort(Forward(c), t[..1]), t[1]);
  }

  /** An element that goes before the first of two and behind the second, put after them, does not split them. */
  lemma CycleStays<T(!new)>(c: (T, T) -> int, s: seq<T>, x: T, y: T, z: T) returns (t: seq<T>)
    requires Distinct(s) && x in s && y in s && z in s && x != y && x != z && y != z
    requires CanPrecede(c, x, y) && c(x, z) > 0 && c(y, z) < 0
    ensures multiset(t) == multiset(s) && !AllSplit(c, t)
  {
    hide Sort;
    var front := if c(x, y) < 0 then [x, y] else [y, x];
    t := OrderFrom(s, front + [z]);
    assert (front + [z])[2] == t[2] && (front + [z])[0] == t[0] && (front + [z])[1] == t[1];
    assert t[..2] == front;
    SortTwo(Forward(c), front[0], front[1]);
    assert Sort(Forward(c), t[..2]) == [x, y];
    assert [x, y][0] == x && [x, y][1] == y;
    assert !Splits(c, [x, y], z);
    assert !Splits(c, Sort(Forward(c), t[..2]), t[2]);
  }

  /** All orders: the backward sort is always the forward one reversed exactly when the comparison is consistent. */
  lemma AllBackwardsIff<T(!new)>(c: (T, T) -> int, s: seq<T>)
    requires Distinct(s)
    ensures (forall t: seq<T> :: multiset(t) == multiset(s) ==> Sort(Backward(c), t) == Reverse(Sort(Forward(c), t)))
       <==> Consistent(c, s)
  {
    hide Sort, Reverse, AllSplit, Distinct, CanPrecede;
    if Consistent(c, s) {
      forall t: seq<T> | multiset(t) == multiset(s)
        ensures Sort(Backward(c), t) == Reverse(Sort(Forward(c), t))
      {
        OrdersAreDistinct(s, t);
        ConsistentSplits(c, s, t);
        SortBackwardsIff(c, t);
      }
    } else {
      var t;
      if x, y :| x in s && y in s && x != y && c(x, y) == 0 {
        t := EqualPairStays(c, s, x, y);
      } else {
        var x, y, z :| x in s && y in s && z in s && x != y && x != z && y != z
                       && CanPrecede(c, x, y) && c(x, z) > 0 && c(y, z) < 0;
        t := CycleStays(c, s, x, y, z);
      }
      OrdersAreDistinct(s, t);
      SortBackwardsIff(c, t);
    }
  }
}
