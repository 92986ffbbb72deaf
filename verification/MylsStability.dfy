/** What the insertion sort of a listing achieves: a stable sorted permutation, the only one there is. */
module MylsStability {
  import opened MylsOrder

  // ---- The specification.

  ghost predicate Sorted<T(!new)>(out: (T, T) -> bool, s: seq<T>) {
    forall i, j :: 0 <= i < j < |s| ==> !out(s[i], s[j])
  }

  /** On the elements of `s`, `out` is the "comes after" of an order in which some may be tied. */
  ghost predicate WeakOrder<T(!new)>(out: (T, T) -> bool, s: seq<T>) {
    && (forall x, y :: x in s && y in s && out(x, y) ==> !out(y, x))
    && (forall x, y, z :: x in s && y in s && z in s && !out(x, y) && !out(y, z) ==> !out(x, z))
  }

  predicate Tied<T>(out: (T, T) -> bool, x: T, y: T) {
    !out(x, y) && !out(y, x)
  }

  /** The elements of `s` tied with `e`, in order. */
  function Ties<T>(out: (T, T) -> bool, s: seq<T>, e: T): seq<T> {
    if s == [] then []
    else Ties(out, s[..|s| - 1], e) + if Tied(out, s[|s| - 1], e) then [s[|s| - 1]] else []
  }

  ghost predicate SameTies<T(!new)>(out: (T, T) -> bool, s: seq<T>, r: seq<T>) {
    forall e :: e in s ==> Ties(out, r, e) == Ties(out, s, e)
  }

  /** Sorted, with the same elements as often, and with tied elements in the order of `s`. */
  ghost predicate IsStableSort<T(!new)>(out: (T, T) -> bool, s: seq<T>, r: seq<T>) {
    Sorted(out, r) && multiset(r) == multiset(s) && SameTies(out, s, r)
  }

  // ---- The sort meets it.

  lemma {:induction false} TiesConcat<T>(out: (T, T) -> bool, a: seq<T>, b: seq<T>, e: T)
    ensures Ties(out, a + b, e) == Ties(out, a, e) + Ties(out, b, e)
    decreases |b|
  {
    if b == [] {
      assert a + b == a;
    } else {
      var c := b[..|b| - 1];
      TiesConcat(out, a, c, e);
      assert (a + b)[..|a + b| - 1] == a + c;
    }
  }

  lemma {:induction false} NoTies<T>(out: (T, T) -> bool, s: seq<T>, e: T)
    requires forall x :: x in s ==> !Tied(out, x, e)
    ensures Ties(out, s, e) == []
    decreases |s|
  {
    if s != [] { NoTies(out, s[..|s| - 1], e); }
  }

  /** Where the inner loop stops. */
  lemma {:induction false} InsertPlace<T>(out: (T, T) -> bool, s: seq<T>, x: T) returns (j: nat)
    ensures j <= |s| && (j == 0 || !out(s[j - 1], x))
    ensures forall k :: j <= k < |s| ==> out(s[k], x)
    ensures Insert(out, s, x) == s[..j] + [x] + s[j..]
  {
    j := |s|;
    while j > 0 && out(s[j - 1], x)
      invariant j <= |s| && forall k :: j <= k < |s| ==> out(s[k], x)
    {
      j := j - 1;
    }
    InsertAt(out, s, x, j);
  }

  ghost predicate Within<T>(s: seq<T>, all: seq<T>) {
    forall k :: 0 <= k < |s| ==> s[k] in all
  }

  lemma InsertKeepsSorted<T(!new)>(out: (T, T) -> bool, s: seq<T>, x: T, all: seq<T>)
    requires Sorted(out, s) && WeakOrder(out, all) && Within(s, all) && x in all
    ensures Sorted(out, Insert(out, s, x))
  {
    var j := InsertPlace(out, s, x);
    forall k | 0 <= k < j
      ensures !out(s[k], x)
    {
      assert k == j - 1 || !out(s[k], s[j - 1]);
    }
    var r := s[..j] + [x] + s[j..];
    assert forall k :: 0 <= k < |r| ==> r[k] == if k < j then s[k] else if k == j then x else s[k - 1];
  }

  lemma InsertKeepsElements<T>(out: (T, T) -> bool, s: seq<T>, x: T)
    ensures multiset(Insert(out, s, x)) == multiset(s) + multiset{x}
  {
    hide *;
    var j := InsertPlace(out, s, x);
    assert s[..j] + s[j..] == s;
  }

  /** Whatever the comparison, sorting only permutes. */
  lemma {:induction false} SortKeepsElements<T>(out: (T, T) -> bool, s: seq<T>)
    ensures multiset(Sort(out, s)) == multiset(s)
    decreases |s|
  {
    if s != [] {
      SortKeepsElements(out, s[..|s| - 1]);
      InsertKeepsElements(out, Sort(out, s[..|s| - 1]), s[|s| - 1]);
      assert s == s[..|s| - 1] + [s[|s| - 1]];
    }
  }

  lemma OvertakenIsNotTied<T(!new)>(out: (T, T) -> bool, y: T, x: T, e: T, all: seq<T>)
    requires WeakOrder(out, all) && x in all && y in all && e in all
    requires out(y, x) && Tied(out, x, e)
    ensures !Tied(out, y, e)
  {
  }

  /** The elements that `x` overtakes are tied with nothing that `x` is tied with. */
  lemma InsertKeepsTies<T(!new)>(out: (T, T) -> bool, s: seq<T>, x: T, e: T, all: seq<T>)
    requires WeakOrder(out, all) && Within(s, all) && x in all && e in all
    ensures Ties(out, Insert(out, s, x), e) == Ties(out, s + [x], e)
  {
    hide Ties, Insert, WeakOrder;
    var j := InsertPlace(out, s, x);
    var low, high := s[..j], s[j..];
    assert s == low + high && s[..j] + [x] + s[j..] == low + ([x] + high);
    TiesConcat(out, low, [x] + high, e);
    TiesConcat(out, [x], high, e);
    TiesConcat(out, low, high, e);
    TiesConcat(out, s, [x], e);
    if Tied(out, x, e) {
      forall y | y in high
        ensures !Tied(out, y, e)
      {
        OvertakenIsNotTied(out, y, x, e, all);
      }
      NoTies(out, high, e);
    } else {
      NoTies(out, [x], e);
    }
  }

  lemma {:induction false} SortIsStableWithin<T(!new)>(out: (T, T) -> bool, s: seq<T>, all: seq<T>)
    requires WeakOrder(out, all) && Within(s, all)
    ensures Sorted(out, Sort(out, s)) && multiset(Sort(out, s)) == multiset(s)
    ensures forall e :: e in all ==> Ties(out, Sort(out, s), e) == Ties(out, s, e)
    decreases |s|
  {
    if s == [] { return; }
    var t, x := s[..|s| - 1], s[|s| - 1];
    var r := Sort(out, t);
    assert s == t + [x];
    SortIsStableWithin(out, t, all);
    SameElements(t, r);
    assert forall k :: 0 <= k < |r| ==> r[k] in t;
    InsertKeepsSorted(out, r, x, all);
    InsertKeepsElements(out, r, x);
    forall e | e in all
      ensures Ties(out, Sort(out, s), e) == Ties(out, s, e)
    {
      InsertKeepsTies(out, r, x, e, all);
      TiesConcat(out, r, [x], e);
      TiesConcat(out, t, [x], e);
    }
  }

  lemma SameElements<T>(s: seq<T>, r: seq<T>)
    requires multiset(r) == multiset(s)
    ensures |r| == |s| && forall y :: y in r <==> y in s
  {
    assert forall y :: y in r <==> y in multiset(r);
    assert forall y :: y in s <==> y in multiset(s);
    assert |r| == |multiset(r)| && |s| == |multiset(s)|;
  }

  /** For an order with ties, the sort is a stable sort. */
  lemma SortIsStable<T(!new)>(out: (T, T) -> bool, s: seq<T>)
    requires WeakOrder(out, s)
    ensures IsStableSort(out, s, Sort(out, s))
  {
    SortIsStableWithin(out, s, s);
  }

  // ---- There is only one stable sort.

  lemma TiesSnoc<T>(out: (T, T) -> bool, s: seq<T>, x: T, e: T)
    ensures Ties(out, s + [x], e) == Ties(out, s, e) + if Tied(out, x, e) then [x] else []
    ensures var t := Ties(out, s + [x], e);
            if Tied(out, x, e) then t != [] && t[|t| - 1] == x && t[..|t| - 1] == Ties(out, s, e) else t == Ties(out, s, e)
  {
    assert (s + [x])[..|s + [x]| - 1] == s;
  }

  lemma LastIsTied<T(!new)>(out: (T, T) -> bool, a: seq<T>, b: seq<T>, all: seq<T>)
    requires WeakOrder(out, all) && Within(a, all) && a != []
    requires Sorted(out, a) && Sorted(out, b) && |a| == |b| && forall y :: y in a <==> y in b
    ensures Tied(out, b[|b| - 1], a[|a| - 1])
  {
    var x, y := a[|a| - 1], b[|b| - 1];
    assert x in b && y in a;
    assert x in all && y in all;
    assert !out(x, x);
    if x != y {
      var k :| 0 <= k < |a| && a[k] == y;
      var j :| 0 <= j < |b| && b[j] == x;
    }
  }

  lemma DropLast<T>(a: seq<T>, b: seq<T>)
    requires multiset(a) == multiset(b) && a != [] && b != [] && a[|a| - 1] == b[|b| - 1]
    ensures multiset(a[..|a| - 1]) == multiset(b[..|b| - 1])
  {
    assert a == a[..|a| - 1] + [a[|a| - 1]] && b == b[..|b| - 1] + [b[|b| - 1]];
    assert multiset(a[..|a| - 1]) == multiset(a) - multiset{a[|a| - 1]};
    assert multiset(b[..|b| - 1]) == multiset(b) - multiset{b[|b| - 1]};
  }

  /** Sorted lists with the same elements and the same ties end with the same element. */
  lemma LastIsSame<T(!new)>(out: (T, T) -> bool, c: seq<T>, x: T, d: seq<T>, y: T, all: seq<T>)
    requires Tied(out, y, x) && Tied(out, x, x) && x in all
    requires forall e :: e in all ==> Ties(out, c + [x], e) == Ties(out, d + [y], e)
    ensures x == y && forall e :: e in all ==> Ties(out, c, e) == Ties(out, d, e)
  {
    hide Ties;
    TiesSnoc(out, c, x, x);
    TiesSnoc(out, d, y, x);
    forall e | e in all
      ensures Ties(out, c, e) == Ties(out, d, e)
    {
      TiesSnoc(out, c, x, e);
      TiesSnoc(out, d, x, e);
    }
  }

  lemma {:induction false} SortedIsUnique<T(!new)>(out: (T, T) -> bool, a: seq<T>, b: seq<T>, all: seq<T>)
    requires WeakOrder(out, all) && Within(a, all) && multiset(a) == multiset(b)
    requires Sorted(out, a) && Sorted(out, b)
    requires forall e :: e in all ==> Ties(out, a, e) == Ties(out, b, e)
    ensures a == b
    decreases |a|
  {
    hide Ties;
    SameElements(a, b);
    if a == [] { return; }
    var x, y := a[|a| - 1], b[|b| - 1];
    var c, d := a[..|a| - 1], b[..|b| - 1];
    assert a == c + [x] && b == d + [y];
    LastIsTied(out, a, b, all);
    LastIsSame(out, c, x, d, y, all);
    DropLast(a, b);
    SortedIsUnique(out, c, d, all);
  }

  /** A list is a stable sort of `s` exactly when it is what the insertion sort leaves. */
  lemma StableSortIsUnique<T(!new)>(out: (T, T) -> bool, s: seq<T>, r: seq<T>)
    requires WeakOrder(out, s)
    ensures IsStableSort(out, s, r) <==> r == Sort(out, s)
  {
    SortIsStable(out, s);
    if IsStableSort(out, s, r) {
      SameElements(s, r);
      SortedIsUnique(out, r, Sort(out, s), s);
    }
  }
}
