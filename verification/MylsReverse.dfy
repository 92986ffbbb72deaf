/** Sorting in the opposite direction, as `-r` does, against reversing the sorted list. */
module MylsReverse {
  import opened MylsOrder
  import opened MylsStability

  function Flip<T>(out: (T, T) -> bool): (T, T) -> bool {
    (x, y) => out(y, x)
  }

  function Reverse<T>(s: seq<T>): (r: seq<T>)
    ensures |r| == |s|
    ensures forall k :: 0 <= k < |s| ==> r[k] == s[|s| - 1 - k]
  {
    if s == [] then [] else [s[|s| - 1]] + Reverse(s[..|s| - 1])
  }

  lemma ReverseConcat<T>(a: seq<T>, b: seq<T>)
    ensures Reverse(a + b) == Reverse(b) + Reverse(a)
  {
    hide Reverse;
  }

  lemma ReverseTwice<T>(s: seq<T>)
    ensures Reverse(Reverse(s)) == s
  {
    hide Reverse;
  }

  lemma {:induction false} ReverseElements<T>(s: seq<T>)
    ensures multiset(Reverse(s)) == multiset(s)
    decreases |s|
  {
    if s != [] {
      ReverseElements(s[..|s| - 1]);
      assert s == s[..|s| - 1] + [s[|s| - 1]];
    }
  }

  lemma {:induction false} ReverseTies<T>(out: (T, T) -> bool, s: seq<T>, e: T)
    ensures Ties(Flip(out), Reverse(s), e) == Reverse(Ties(out, s, e))
    decreases |s|
  {
    if s != [] {
      var t, x := s[..|s| - 1], s[|s| - 1];
      ReverseTies(out, t, e);
      TiesConcat(Flip(out), [x], Reverse(t), e);
      ReverseConcat(Ties(out, t, e), if Tied(out, x, e) then [x] else []);
    }
  }

  /** Sorting the other way round is sorting the reversed list and reversing the result. */
  lemma SortFlipped<T(!new)>(out: (T, T) -> bool, s: seq<T>)
    requires WeakOrder(out, s)
    ensures Sort(Flip(out), s) == Reverse(Sort(out, Reverse(s)))
  {
    hide Sort, Reverse, Ties;
    var q := Reverse(s);
    ReverseElements(s);
    SameElements(s, q);
    SortIsStable(out, q);
    var r := Sort(out, q);
    ReverseElements(r);
    assert Sorted(Flip(out), Reverse(r));
    forall e | e in s
      ensures Ties(Flip(out), Reverse(r), e) == Ties(Flip(out), s, e)
    {
      ReverseTies(out, r, e);
      ReverseTies(out, q, e);
      ReverseTwice(s);
    }
    StableSortIsUnique(Flip(out), s, Reverse(r));
  }

  ghost predicate OnlyEqualTied<T(!new)>(out: (T, T) -> bool, s: seq<T>) {
    forall x, y :: x in s && y in s && Tied(out, x, y) ==> x == y
  }

  lemma {:induction false} TiesAreCopies<T(!new)>(out: (T, T) -> bool, s: seq<T>, e: T)
    requires Tied(out, e, e) && forall x :: x in s && Tied(out, x, e) ==> x == e
    ensures Ties(out, s, e) == seq(multiset(s)[e], i => e)
    decreases |s|
  {
    if s != [] {
      TiesAreCopies(out, s[..|s| - 1], e);
      assert s == s[..|s| - 1] + [s[|s| - 1]];
    }
  }

  /** When only equal elements are tied, the flipped sort is the sorted list backwards. */
  lemma FlippedIsBackwards<T(!new)>(out: (T, T) -> bool, s: seq<T>)
    requires WeakOrder(out, s) && OnlyEqualTied(out, s)
    ensures Sort(Flip(out), s) == Reverse(Sort(out, s))
  {
    hide Sort, Reverse, Ties;
    var q := Reverse(s);
    ReverseElements(s);
    SameElements(s, q);
    SortFlipped(out, s);
    SortIsStable(out, q);
    forall e | e in s
      ensures Ties(out, q, e) == Ties(out, s, e)
    {
      TiesAreCopies(out, q, e);
      TiesAreCopies(out, s, e);
    }
    StableSortIsUnique(out, s, Sort(out, q));
  }

  ghost predicate Distinct<T(!new)>(s: seq<T>) {
    forall i, j :: 0 <= i < j < |s| ==> s[i] != s[j]
  }

  /** Where an element of `s` stands among the elements tied with it. */
  lemma {:induction false} TiesAt<T(!new)>(out: (T, T) -> bool, s: seq<T>, e: T, k: nat) returns (n: nat)
    requires k < |s| && Tied(out, s[k], e)
    ensures n < |Ties(out, s, e)| && Ties(out, s, e)[n] == s[k]
    ensures n == |Ties(out, s[..k], e)|
    decreases |s|
  {
    if k == |s| - 1 {
      n := |Ties(out, s[..k], e)|;
    } else {
      n := TiesAt(out, s[..|s| - 1], e, k);
      assert s[..|s| - 1][..k] == s[..k];
    }
  }

  lemma {:induction false} TiesAreFromList<T(!new)>(out: (T, T) -> bool, s: seq<T>, e: T)
    requires Distinct(s)
    ensures Distinct(Ties(out, s, e)) && forall y :: y in Ties(out, s, e) ==> y in s
    decreases |s|
  {
    if s != [] {
      TiesAreFromList(out, s[..|s| - 1], e);
      assert s[|s| - 1] !in s[..|s| - 1];
    }
  }

  /** Distinct elements: the flipped sort is the sorted list backwards exactly when no two are tied. */
  lemma FlippedIsBackwardsIff<T(!new)>(out: (T, T) -> bool, s: seq<T>)
    requires WeakOrder(out, s) && Distinct(s)
    ensures Sort(Flip(out), s) == Reverse(Sort(out, s)) <==> OnlyEqualTied(out, s)
  {
    hide Sort, Reverse, Ties, Distinct;
    if OnlyEqualTied(out, s) {
      FlippedIsBackwards(out, s);
    } else if Sort(Flip(out), s) == Reverse(Sort(out, s)) {
      var x, y :| x in s && y in s && Tied(out, x, y) && x != y;
      TiedSortsDiffer(out, s, x, y);
    }
  }

  /** Two tied elements keep their order in both directions, so they would have to be one element. */
  lemma TiedSortsDiffer<T(!new)>(out: (T, T) -> bool, s: seq<T>, x: T, y: T)
    requires WeakOrder(out, s) && Distinct(s)
    requires x in s && y in s && Tied(out, x, y) && x != y
    ensures Sort(Flip(out), s) != Reverse(Sort(out, s))
  {
    hide Sort, Reverse, Ties, Distinct, WeakOrder, Sorted;
    var q := Reverse(s);
    ReverseElements(s);
    SameElements(s, q);
    SortFlipped(out, s);
    SortIsStable(out, s);
    WeakOrderOfSame(out, s, q);
    SortIsStable(out, q);
    var t := Ties(out, s, x);
    TiesAreFromList(out, s, x);
    TwoTies(out, s, x, y);
    if Sort(Flip(out), s) == Reverse(Sort(out, s)) {
      ReverseTwice(Sort(out, s));
      ReverseTwice(Sort(out, q));
      assert Ties(out, q, x) == t;
      ReverseTies(out, s, x);
      TiesFlipped(out, q, x);
      assert t == Reverse(t);
      FirstIsNotLast(t);
    }
  }

  lemma FirstIsNotLast<T(!new)>(t: seq<T>)
    requires Distinct(t) && |t| >= 2
    ensures t != Reverse(t)
  {
    hide Reverse;
    assert Reverse(t)[0] == t[|t| - 1] != t[0];
  }

  lemma WeakOrderOfSame<T(!new)>(out: (T, T) -> bool, s: seq<T>, q: seq<T>)
    requires WeakOrder(out, s) && forall y :: y in s <==> y in q
    ensures WeakOrder(out, q)
  {
  }

  lemma {:induction false} TiesFlipped<T(!new)>(out: (T, T) -> bool, s: seq<T>, e: T)
    ensures Ties(Flip(out), s, e) == Ties(out, s, e)
    decreases |s|
  {
    if s != [] { TiesFlipped(out, s[..|s| - 1], e); }
  }

  lemma TwoTies<T(!new)>(out: (T, T) -> bool, s: seq<T>, x: T, y: T)
    requires WeakOrder(out, s) && x in s && y in s && Tied(out, x, y) && x != y
    ensures |Ties(out, s, x)| >= 2
  {
    hide Ties;
    var i :| 0 <= i < |s| && s[i] == x;
    var j :| 0 <= j < |s| && s[j] == y;
    assert Tied(out, x, x);
    var m := TiesAt(out, s, x, i);
    var n := TiesAt(out, s, x, j);
  }
}
