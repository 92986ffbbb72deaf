/**
 * Two insertion sorts of one list, compared walk by walk: the inner loop walks down from the end of what is sorted so
 * far, and what it does not compare it cannot get wrong.
 */
module MylsWalks {
  import opened MylsOrder
  import opened MylsStability
  import opened MylsReverse

  /** `p` and `q` agree wherever the walk of `x` down from the end of `r` compares. */
  predicate SameWalk<T(==)>(p: (T, T) -> bool, q: (T, T) -> bool, r: seq<T>, x: T) {
    if r == [] then true
    else
      var y := r[|r| - 1];
      p(y, x) == q(y, x) && (q(y, x) ==> SameWalk(p, q, r[..|r| - 1], x))
  }

  lemma {:induction false} InsertSameIff<T>(p: (T, T) -> bool, q: (T, T) -> bool, r: seq<T>, x: T)
    requires x !in r
    ensures Insert(p, r, x) == Insert(q, r, x) <==> SameWalk(p, q, r, x)
    decreases |r|
  {
    if r != [] {
      var c, y := r[..|r| - 1], r[|r| - 1];
      InsertSameIff(p, q, c, x);
      var u, v := Insert(p, r, x), Insert(q, r, x);
      assert u[|u| - 1] == if p(y, x) then y else x;
      assert v[|v| - 1] == if q(y, x) then y else x;
      if p(y, x) && q(y, x) {
        assert u[..|u| - 1] == Insert(p, c, x) && v[..|v| - 1] == Insert(q, c, x);
      }
    }
  }

  /** The element inserted can be found again, and without it the rest is as it was. */
  lemma InsertedApart<T>(p: (T, T) -> bool, a: seq<T>, q: (T, T) -> bool, b: seq<T>, x: T)
    requires x !in a && x !in b && Insert(p, a, x) == Insert(q, b, x)
    ensures a == b
  {
    hide Insert;
    var i := InsertPlace(p, a, x);
    var j := InsertPlace(q, b, x);
    SplitApart(a, i, b, j, x);
  }

  lemma BeforeIn<T>(a: seq<T>, i: nat, x: T, k: nat)
    requires i <= |a|
    ensures k < i ==> (a[..i] + [x] + a[i..])[k] in a
  {
    if k < i { assert (a[..i] + [x] + a[i..])[k] == a[k]; }
  }

  lemma SplitApart<T>(a: seq<T>, i: nat, b: seq<T>, j: nat, x: T)
    requires x !in a && x !in b && i <= |a| && j <= |b|
    requires a[..i] + [x] + a[i..] == b[..j] + [x] + b[j..]
    ensures i == j && a == b
  {
    var u, v := a[..i] + [x] + a[i..], b[..j] + [x] + b[j..];
    assert u[i] == x && v[j] == x;
    BeforeIn(a, i, x, j);
    BeforeIn(b, j, x, i);
    assert u[..i] == a[..i] && v[..j] == b[..j] && u[i + 1..] == a[i..] && v[j + 1..] == b[j..];
    assert a == a[..i] + a[i..] && b == b[..j] + b[j..];
  }

  lemma DistinctPrefix<T(!new)>(s: seq<T>)
    requires Distinct(s) && s != []
    ensures Distinct(s[..|s| - 1]) && s[|s| - 1] !in s[..|s| - 1]
  {
  }

  lemma NotSortedIn<T>(out: (T, T) -> bool, s: seq<T>, x: T)
    requires x !in s
    ensures x !in Sort(out, s)
  {
    SortKeepsElements(out, s);
    SameElements(s, Sort(out, s));
  }

  /** The walks that sorting `s` takes: each element down what is sorted before it. */
  ghost predicate SameWalks<T(!new)>(p: (T, T) -> bool, q: (T, T) -> bool, s: seq<T>) {
    forall i :: 0 <= i < |s| ==> SameWalk(p, q, Sort(q, s[..i]), s[i])
  }

  lemma SameWalksSnoc<T(!new)>(p: (T, T) -> bool, q: (T, T) -> bool, s: seq<T>)
    requires s != []
    ensures var t, x := s[..|s| - 1], s[|s| - 1];
            SameWalks(p, q, s) <==> SameWalks(p, q, t) && SameWalk(p, q, Sort(q, t), x)
  {
    hide SameWalk, Sort;
    var t := s[..|s| - 1];
    assert forall i :: 0 <= i < |t| ==> t[..i] == s[..i] && t[i] == s[i];
    if SameWalks(p, q, t) && SameWalk(p, q, Sort(q, t), s[|s| - 1]) {
      forall i | 0 <= i < |s|
        ensures SameWalk(p, q, Sort(q, s[..i]), s[i])
      {
        if i < |t| { assert SameWalk(p, q, Sort(q, t[..i]), t[i]); }
      }
    }
    if SameWalks(p, q, s) {
      forall i | 0 <= i < |t|
        ensures SameWalk(p, q, Sort(q, t[..i]), t[i])
      {
        assert SameWalk(p, q, Sort(q, s[..i]), s[i]);
      }
    }
  }

  /**
   * Distinct elements: two comparisons sort a list alike exactly when they agree on all pairs that the sort by the
   * second one compares. Elements already placed keep their order, so what goes wrong once stays wrong.
   */
  lemma {:induction false} SortSameIff<T(!new)>(p: (T, T) -> bool, q: (T, T) -> bool, s: seq<T>)
    requires Distinct(s)
    ensures Sort(p, s) == Sort(q, s) <==> SameWalks(p, q, s)
    decreases |s|
  {
    if s == [] { return; }
    var t, x := s[..|s| - 1], s[|s| - 1];
    DistinctPrefix(s);
    SortSameIff(p, q, t);
    SameWalksSnoc(p, q, s);
    NotSortedIn(p, t, x);
    NotSortedIn(q, t, x);
    InsertSameIff(p, q, Sort(q, t), x);
    if Sort(p, s) == Sort(q, s) {
      InsertedApart(p, Sort(p, t), q, Sort(q, t), x);
    }
  }

  // ---- All orders of a list.

  lemma {:induction false} SeqOf<T>(m: multiset<T>) returns (s: seq<T>)
    ensures multiset(s) == m
    decreases |m|
  {
    if m == multiset{} {
      s := [];
    } else {
      var x :| x in m;
      var t := SeqOf(m - multiset{x});
      s := t + [x];
    }
  }

  /** The elements of `s` in an order that starts with `front`. */
  lemma OrderFrom<T(!new)>(s: seq<T>, front: seq<T>) returns (t: seq<T>)
    requires Distinct(front) && forall x :: x in front ==> x in s
    ensures multiset(t) == multiset(s) && front <= t
  {
    forall x | x in multiset(front)
      ensures multiset(front)[x] <= multiset(s)[x]
    {
      DistinctOnce(front, x);
      assert x in front;
      assert x in multiset(s);
    }
    var rest := SeqOf(multiset(s) - multiset(front));
    t := front + rest;
    assert multiset(front) + (multiset(s) - multiset(front)) == multiset(s);
  }

  lemma {:induction false} DistinctOnce<T(!new)>(s: seq<T>, x: T)
    requires Distinct(s)
    ensures multiset(s)[x] <= 1
    decreases |s|
  {
    if s != [] {
      DistinctPrefix(s);
      DistinctOnce(s[..|s| - 1], x);
      assert s == s[..|s| - 1] + [s[|s| - 1]];
    }
  }

  lemma {:induction false} OnceDistinct<T(!new)>(s: seq<T>)
    requires forall x :: multiset(s)[x] <= 1
    ensures Distinct(s)
    decreases |s|
  {
    if s != [] {
      var t, x := s[..|s| - 1], s[|s| - 1];
      assert s == t + [x];
      assert forall y :: multiset(s)[y] == multiset(t)[y] + multiset{x}[y];
      OnceDistinct(t);
      assert x !in multiset(t);
    }
  }

  lemma OrdersAreDistinct<T(!new)>(s: seq<T>, t: seq<T>)
    requires Distinct(s) && multiset(t) == multiset(s)
    ensures Distinct(t) && forall x :: x in t ==> x in s
  {
    forall x ensures multiset(t)[x] <= 1 { DistinctOnce(s, x); }
    OnceDistinct(t);
    SameElements(s, t);
  }

  ghost predicate SamePairs<T(!new)>(p: (T, T) -> bool, q: (T, T) -> bool, s: seq<T>) {
    forall x, y :: x in s && y in s && x != y ==> p(x, y) == q(x, y)
  }

  lemma {:induction false} SamePairsSameWalk<T(!new)>(p: (T, T) -> bool, q: (T, T) -> bool, s: seq<T>, r: seq<T>, x: T)
    requires SamePairs(p, q, s) && x in s && x !in r && forall y :: y in r ==> y in s
    ensures SameWalk(p, q, r, x)
    decreases |r|
  {
    if r != [] { SamePairsSameWalk(p, q, s, r[..|r| - 1], x); }
  }

  lemma SamePairsSameWalks<T(!new)>(p: (T, T) -> bool, q: (T, T) -> bool, s: seq<T>, t: seq<T>)
    requires SamePairs(p, q, s) && Distinct(t) && forall x :: x in t ==> x in s
    ensures SameWalks(p, q, t)
  {
    hide SameWalk, SamePairs, Sort;
    forall i | 0 <= i < |t|
      ensures SameWalk(p, q, Sort(q, t[..i]), t[i])
    {
      SortKeepsElements(q, t[..i]);
      SameElements(t[..i], Sort(q, t[..i]));
      SamePairsSameWalk(p, q, s, Sort(q, t[..i]), t[i]);
    }
  }

  /** Distinct elements: all their orders are sorted alike exactly when the comparisons agree on all pairs. */
  lemma AllOrdersSameIff<T(!new)>(p: (T, T) -> bool, q: (T, T) -> bool, s: seq<T>)
    requires Distinct(s)
    ensures (forall t: seq<T> :: multiset(t) == multiset(s) ==> Sort(p, t) == Sort(q, t)) <==> SamePairs(p, q, s)
  {
    hide Sort, SameWalks, Distinct;
    if SamePairs(p, q, s) {
      forall t: seq<T> | multiset(t) == multiset(s)
        ensures Sort(p, t) == Sort(q, t)
      {
        OrdersAreDistinct(s, t);
        SamePairsSameWalks(p, q, s, t);
        SortSameIff(p, q, t);
      }
    } else {
      var x, y :| x in s && y in s && x != y && p(x, y) != q(x, y);
      var t := OrderSortedApart(p, q, s, x, y);
    }
  }

  /** A pair on which the comparisons differ, put first, is sorted differently. */
  lemma OrderSortedApart<T(!new)>(p: (T, T) -> bool, q: (T, T) -> bool, s: seq<T>, x: T, y: T) returns (t: seq<T>)
    requires Distinct(s) && x in s && y in s && x != y && p(x, y) != q(x, y)
    ensures multiset(t) == multiset(s) && Sort(p, t) != Sort(q, t)
  {
    hide Sort;
    t := OrderFrom(s, [x, y]);
    OrdersAreDistinct(s, t);
    SortSameIff(p, q, t);
    assert [x, y][0] == t[0] && [x, y][1] == t[1];
    SortOne(q, x);
    assert t[..1] == [x];
    assert !SameWalk(p, q, Sort(q, t[..1]), t[1]);
  }

  lemma SortOne<T>(out: (T, T) -> bool, x: T)
    ensures Sort(out, [x]) == [x]
  {
    InsertAt(out, [], x, 0);
    assert [x][..0] == [];
  }

  lemma SortTwo<T>(out: (T, T) -> bool, a: T, b: T)
    ensures Sort(out, [a, b]) == if out(a, b) then [b, a] else [a, b]
  {
    InsertAt(out, [], a, 0);
    InsertAt(out, [a], b, if out(a, b) then 0 else 1);
    assert [a, b][..1] == [a] && [a][..0] == [];
    assert Sort(out, [a]) == [a];
  }
}
