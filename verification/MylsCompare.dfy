/** Listings by name are always in order; listings by time or size are, as far as the differences fit an `int`. */
module MylsCompare {
  import opened MylsOrder
  import opened MylsStability
  import opened MylsReverse
  import opened MylsWalks
  import opened MylsBackwards

  /** Sorting only looks at how the comparison treats the elements of the list. */
  lemma {:induction false} SortAgrees<T(!new)>(p: (T, T) -> bool, q: (T, T) -> bool, s: seq<T>)
    requires forall x, y :: x in s && y in s ==> p(x, y) == q(x, y)
    ensures Sort(p, s) == Sort(q, s)
    decreases |s|
  {
    if s != [] {
      var t, x := s[..|s| - 1], s[|s| - 1];
      SortAgrees(p, q, t);
      var r := Sort(p, t);
      SortKeepsElements(p, t);
      SameElements(t, r);
      assert forall k :: 0 <= k < |r| ==> r[k] in t;
      InsertAgrees(p, q, r, x);
    }
  }

  lemma {:induction false} InsertAgrees<T(!new)>(p: (T, T) -> bool, q: (T, T) -> bool, s: seq<T>, x: T)
    requires forall k :: 0 <= k < |s| ==> p(s[k], x) == q(s[k], x)
    ensures Insert(p, s, x) == Insert(q, s, x)
    decreases |s|
  {
    if s != [] { InsertAgrees(p, q, s[..|s| - 1], x); }
  }

  // ---- By name.

  lemma {:induction false} StrCmpOpposite(a: Name, b: Name)
    ensures StrCmp(a, b) == -StrCmp(b, a)
    decreases |a|
  {
    if a != "" && b != "" { StrCmpOpposite(a[1..], b[1..]); }
  }

  lemma {:induction false} StrCmpZero(a: Name, b: Name)
    ensures StrCmp(a, b) == 0 <==> a == b
    decreases |a|
  {
    if a != "" && b != "" {
      StrCmpZero(a[1..], b[1..]);
      assert a == [a[0]] + a[1..] && b == [b[0]] + b[1..];
    } else if a != "" {
      assert a[0] != '\0';
    } else if b != "" {
      assert b[0] != '\0';
    }
  }

  lemma {:induction false} StrCmpTransitive(a: Name, b: Name, c: Name)
    requires StrCmp(a, b) <= 0 && StrCmp(b, c) <= 0
    ensures StrCmp(a, c) <= 0
    decreases |a|
  {
    if a != "" && b != "" && c != "" {
      if a[0] == b[0] == c[0] { StrCmpTransitive(a[1..], b[1..], c[1..]); }
    }
  }

  /** The strings agree up to `k`, and there `a` ends or has the smaller character. */
  predicate DiffersAt(a: string, b: string, k: nat) {
    k <= |a| && k < |b| && a[..k] == b[..k] && (k == |a| || a[k] < b[k])
  }

  /** `a` comes before `b` in a dictionary. */
  ghost predicate Precedes(a: string, b: string) {
    exists k: nat :: DiffersAt(a, b, k)
  }

  /** `strcmp` is negative exactly for strings in the order of a dictionary. */
  lemma {:induction false} StrCmpIsDictionary(a: Name, b: Name)
    ensures StrCmp(a, b) < 0 <==> Precedes(a, b)
    decreases |a|
  {
    if a == "" {
      assert b != "" ==> DiffersAt(a, b, 0) && b[0] != '\0';
    } else if b != "" && a[0] == b[0] {
      StrCmpIsDictionary(a[1..], b[1..]);
      if k: nat :| DiffersAt(a[1..], b[1..], k) {
        assert a[..k + 1] == [a[0]] + a[1..][..k] && b[..k + 1] == [b[0]] + b[1..][..k];
        assert DiffersAt(a, b, k + 1);
      }
      if k: nat :| DiffersAt(a, b, k) {
        assert k > 0 && a[1..][..k - 1] == a[..k][1..] && b[1..][..k - 1] == b[..k][1..];
        assert DiffersAt(a[1..], b[1..], k - 1);
      }
    } else if b != "" {
      assert DiffersAt(a, b, 0) <==> a[0] < b[0];
      if k: nat :| DiffersAt(a, b, k) {
        assert k > 0 ==> a[..k][0] == b[..k][0];
      }
    }
  }

  /** By name, the list is in the order of a dictionary, and with `-r` in the opposite one. */
  lemma ByNameIsDictionary(lstat: Name -> Stat, s: seq<Name>, reverse: bool)
    ensures var r := Sort(By(0, lstat, reverse), s);
            forall i, j :: 0 <= i < j < |r| ==>
              r[i] == r[j] || (if reverse then Precedes(r[j], r[i]) else Precedes(r[i], r[j]))
  {
    hide Sort, StrCmp, Ties;
    ByName(lstat, s);
    var r := Sort(By(0, lstat, reverse), s);
    forall i, j | 0 <= i < j < |r|
      ensures r[i] == r[j] || (if reverse then Precedes(r[j], r[i]) else Precedes(r[i], r[j]))
    {
      StrCmpZero(r[i], r[j]);
      StrCmpOpposite(r[i], r[j]);
      StrCmpIsDictionary(r[i], r[j]);
      StrCmpIsDictionary(r[j], r[i]);
    }
  }

  lemma NamesAreOrdered(lstat: Name -> Stat, s: seq<Name>)
    ensures WeakOrder(By(0, lstat, false), s) && OnlyEqualTied(By(0, lstat, false), s)
  {
    hide StrCmp;
    var out := By(0, lstat, false);
    forall x, y ensures out(x, y) ==> !out(y, x) { StrCmpOpposite(x, y); }
    forall x: Name, y: Name, z: Name | !out(x, y) && !out(y, z) ensures !out(x, z) { StrCmpTransitive(x, y, z); }
    forall x, y | Tied(out, x, y) ensures x == y { StrCmpOpposite(x, y); StrCmpZero(x, y); }
  }

  /** By name, both directions sort, for all names, and `-r` gives exactly the forward list backwards. */
  lemma ByName(lstat: Name -> Stat, s: seq<Name>)
    ensures IsStableSort(By(0, lstat, false), s, Sort(By(0, lstat, false), s))
    ensures IsStableSort(By(0, lstat, true), s, Sort(By(0, lstat, true), s))
    ensures Sort(By(0, lstat, true), s) == Reverse(Sort(By(0, lstat, false), s))
  {
    hide StrCmp, Sort, Ties, Reverse;
    var fwd, back := By(0, lstat, false), By(0, lstat, true);
    NamesAreOrdered(lstat, s);
    SortIsStable(fwd, s);
    FlippedIsBackwards(fwd, s);
    forall x, y ensures back(x, y) == Flip(fwd)(x, y) { StrCmpOpposite(x, y); }
    SortAgrees(back, Flip(fwd), s);
    SortIsStable(back, s);
  }

  // ---- By time or size.

  /** The order that a listing by `op` is meant to have: the largest first, or last with `-r`. */
  function Meant(op: OrderBy, lstat: Name -> Stat, reverse: bool): (Name, Name) -> bool {
    (a: Name, b: Name) => if reverse then Key(op, lstat(a)) > Key(op, lstat(b)) else Key(op, lstat(a)) < Key(op, lstat(b))
  }

  /** The difference survives the conversion to `int` with its sign. */
  predicate SignKept(d: int) {
    || d == 0
    || (d > 0 && 0 < d % 0x1_0000_0000 < 0x8000_0000)
    || (d < 0 && d % 0x1_0000_0000 >= 0x8000_0000)
  }

  /** The conversion keeps the lowest 32 bits, read as a signed number. */
  lemma ToIntIs(d: int)
    ensures -0x8000_0000 <= ToInt(d) < 0x8000_0000 && (ToInt(d) - d) % 0x1_0000_0000 == 0
  {
  }

  lemma SignKeptIff(d: int)
    ensures SignKept(d) <==> (ToInt(d) > 0 <==> d > 0) && (ToInt(d) < 0 <==> d < 0)
  {
  }

  /** The differences between any two of the entries keep their sign. */
  ghost predicate Comparable(op: OrderBy, lstat: Name -> Stat, s: seq<Name>) {
    forall a, b :: a in s && b in s ==> SignKept(Key(op, lstat(a)) - Key(op, lstat(b)))
  }

  lemma MeantIsOrdered(op: OrderBy, lstat: Name -> Stat, reverse: bool, s: seq<Name>)
    ensures WeakOrder(Meant(op, lstat, reverse), s)
  {
  }

  /** On comparable entries, both directions are the stable sort by the attribute. */
  lemma ByKey(op: OrderBy, lstat: Name -> Stat, reverse: bool, s: seq<Name>)
    requires op != 0 && Comparable(op, lstat, s)
    ensures Sort(By(op, lstat, reverse), s) == Sort(Meant(op, lstat, reverse), s)
    ensures IsStableSort(Meant(op, lstat, reverse), s, Sort(By(op, lstat, reverse), s))
  {
    hide ToInt, SignKept, Sort, Ties, Key;
    forall a, b | a in s && b in s
      ensures By(op, lstat, reverse)(a, b) == Meant(op, lstat, reverse)(a, b)
    {
      SignKeptIff(Key(op, lstat(b)) - Key(op, lstat(a)));
    }
    SortAgrees(By(op, lstat, reverse), Meant(op, lstat, reverse), s);
    MeantIsOrdered(op, lstat, reverse, s);
    SortIsStable(Meant(op, lstat, reverse), s);
  }

  /** As `SignKept`, for the one sign that a direction of the sort asks for. */
  predicate Trusted(reverse: bool, d: int) {
    if reverse then d < 0 <==> d % 0x1_0000_0000 >= 0x8000_0000
    else d > 0 <==> 0 < d % 0x1_0000_0000 < 0x8000_0000
  }

  lemma TrustedIff(op: OrderBy, lstat: Name -> Stat, reverse: bool, a: Name, b: Name)
    requires op != 0
    ensures By(op, lstat, reverse)(a, b) == Meant(op, lstat, reverse)(a, b)
       <==> Trusted(reverse, Key(op, lstat(b)) - Key(op, lstat(a)))
  {
    hide Key;
  }

  /** The difference of two attributes keeps its sign exactly when both orders of the two are compared as meant. */
  lemma SignKeptBothWays(reverse: bool, d: int)
    ensures SignKept(d) && SignKept(-d) <==> Trusted(reverse, d) && Trusted(reverse, -d)
  {
    RemainderOfNegative(d, d / 0x1_0000_0000, d % 0x1_0000_0000);
    SignsOfRemainders(reverse, d, d % 0x1_0000_0000, -d % 0x1_0000_0000);
  }

  lemma RemainderOfNegative(d: int, q: int, r: int)
    requires d == 0x1_0000_0000 * q + r && 0 <= r < 0x1_0000_0000
    ensures -d % 0x1_0000_0000 == if r == 0 then 0 else 0x1_0000_0000 - r
  {
  }

  lemma SignsOfRemainders(reverse: bool, d: int, r: int, r': int)
    requires r == d % 0x1_0000_0000 && r' == -d % 0x1_0000_0000
    requires r' == if r == 0 then 0 else 0x1_0000_0000 - r
    ensures SignKept(d) && SignKept(-d) <==> Trusted(reverse, d) && Trusted(reverse, -d)
  {
  }

  lemma ComparableIff(op: OrderBy, lstat: Name -> Stat, reverse: bool, s: seq<Name>)
    requires op != 0
    ensures Comparable(op, lstat, s) <==> SamePairs(By(op, lstat, reverse), Meant(op, lstat, reverse), s)
  {
    hide SignKept, Trusted, Key, By, Meant;
    forall a, b | a in s && b in s
      ensures SignKept(Key(op, lstat(a)) - Key(op, lstat(b))) && SignKept(Key(op, lstat(b)) - Key(op, lstat(a)))
         <==> By(op, lstat, reverse)(a, b) == Meant(op, lstat, reverse)(a, b)
              && By(op, lstat, reverse)(b, a) == Meant(op, lstat, reverse)(b, a)
    {
      TrustedIff(op, lstat, reverse, a, b);
      TrustedIff(op, lstat, reverse, b, a);
      SignKeptBothWays(reverse, Key(op, lstat(a)) - Key(op, lstat(b)));
    }
    forall a ensures SignKept(Key(op, lstat(a)) - Key(op, lstat(a))) { ZeroIsKept(); }
  }

  lemma ZeroIsKept()
    ensures SignKept(0)
  {
  }

  /**
   The entries of `s` are comparable exactly when every list drawn from them comes out in the order meant; and if they
   are distinct, as in a directory, exactly when all of them do, in whatever order they are read.
  */
  lemma ByKeyIff(op: OrderBy, lstat: Name -> Stat, reverse: bool, s: seq<Name>)
    requires op != 0
    ensures Comparable(op, lstat, s)
      <==> forall t: seq<Name> :: (forall x :: x in t ==> x in s) ==>
             Sort(By(op, lstat, reverse), t) == Sort(Meant(op, lstat, reverse), t)
    ensures Distinct(s) ==>
      (Comparable(op, lstat, s)
       <==> forall t: seq<Name> :: multiset(t) == multiset(s) ==>
              Sort(By(op, lstat, reverse), t) == Sort(Meant(op, lstat, reverse), t))
  {
    hide ToInt, SignKept, Sort, Key, Distinct, SamePairs;
    if Comparable(op, lstat, s) {
      forall t: seq<Name> | forall x :: x in t ==> x in s
        ensures Sort(By(op, lstat, reverse), t) == Sort(Meant(op, lstat, reverse), t)
      {
        ByKey(op, lstat, reverse, t);
      }
    } else {
      var a, b :| a in s && b in s && !SignKept(Key(op, lstat(a)) - Key(op, lstat(b)));
      var t := WronglySorted(op, lstat, reverse, a, b);
      assert forall x :: x in t ==> x in s;
    }
    if Distinct(s) {
      ComparableIff(op, lstat, reverse, s);
      AllOrdersSameIff(By(op, lstat, reverse), Meant(op, lstat, reverse), s);
    }
  }

  /** Of two entries whose difference loses its sign, one of the two orders is not sorted as meant. */
  lemma WronglySorted(op: OrderBy, lstat: Name -> Stat, reverse: bool, a: Name, b: Name) returns (t: seq<Name>)
    requires op != 0 && !SignKept(Key(op, lstat(a)) - Key(op, lstat(b)))
    ensures (t == [a, b] || t == [b, a]) && Sort(By(op, lstat, reverse), t) != Sort(Meant(op, lstat, reverse), t)
  {
    hide Sort, Key;
    var actual, meant := By(op, lstat, reverse), Meant(op, lstat, reverse);
    SortTwo(actual, a, b);
    SortTwo(actual, b, a);
    SortTwo(meant, a, b);
    SortTwo(meant, b, a);
    t := if actual(a, b) != meant(a, b) then [a, b] else [b, a];
  }

  /**
   The differences from the entry `x` to those that the inner loop compares it with, were they in the order meant, keep
   the sign asked for: from the end of the sorted entries `r` down to the first that `x` does not go before.
  */
  predicate WalkTrusted(op: OrderBy, lstat: Name -> Stat, reverse: bool, r: seq<Name>, x: Name) {
    if r == [] then true
    else
      var y := r[|r| - 1];
      && Trusted(reverse, Key(op, lstat(x)) - Key(op, lstat(y)))
      && (Meant(op, lstat, reverse)(y, x) ==> WalkTrusted(op, lstat, reverse, r[..|r| - 1], x))
  }

  lemma {:induction false} WalkTrustedIff(op: OrderBy, lstat: Name -> Stat, reverse: bool, r: seq<Name>, x: Name)
    requires op != 0
    ensures WalkTrusted(op, lstat, reverse, r, x) <==> SameWalk(By(op, lstat, reverse), Meant(op, lstat, reverse), r, x)
    decreases |r|
  {
    hide By, Meant, Trusted, Key;
    if r != [] {
      TrustedIff(op, lstat, reverse, r[|r| - 1], x);
      WalkTrustedIff(op, lstat, reverse, r[..|r| - 1], x);
    }
  }

  /** One list of distinct entries comes out in the order meant exactly when all comparisons on its walks are trusted. */
  lemma ThisListByKeyIff(op: OrderBy, lstat: Name -> Stat, reverse: bool, s: seq<Name>)
    requires op != 0 && Distinct(s)
    ensures Sort(By(op, lstat, reverse), s) == Sort(Meant(op, lstat, reverse), s)
      <==> forall i :: 0 <= i < |s| ==>
             WalkTrusted(op, lstat, reverse, Sort(Meant(op, lstat, reverse), s[..i]), s[i])
  {
    hide By, Meant, SameWalk, Sort, WalkTrusted, Distinct;
    var p, q := By(op, lstat, reverse), Meant(op, lstat, reverse);
    SortSameIff(p, q, s);
    forall i | 0 <= i < |s|
      ensures WalkTrusted(op, lstat, reverse, Sort(q, s[..i]), s[i]) <==> SameWalk(p, q, Sort(q, s[..i]), s[i])
    {
      WalkTrustedIff(op, lstat, reverse, Sort(q, s[..i]), s[i]);
    }
  }

  /** A file of 3 GiB and an empty one: the empty one is listed first, though `-S` puts the largest first. */
  lemma LargeFileIsMisplaced(lstat: Name -> Stat, big: Name, empty: Name)
    requires lstat(big).size == 0xC000_0000 && lstat(empty).size == 0
    ensures Sort(By(4, lstat, false), [big, empty]) == [empty, big]
    ensures Sort(Meant(4, lstat, false), [big, empty]) == [big, empty]
  {
    hide Sort;
    SortTwo(By(4, lstat, false), big, empty);
    SortTwo(Meant(4, lstat, false), big, empty);
  }

  // ---- `-r`.

  function Sign(op: OrderBy, lstat: Name -> Stat): (Name, Name) -> int {
    (a: Name, b: Name) => Cmp(op, lstat, a, b)
  }

  lemma SortsBySign(op: OrderBy, lstat: Name -> Stat, s: seq<Name>)
    ensures Sort(By(op, lstat, false), s) == Sort(Forward(Sign(op, lstat)), s)
    ensures Sort(By(op, lstat, true), s) == Sort(Backward(Sign(op, lstat)), s)
  {
    hide Cmp, Sort;
    SortAgrees(By(op, lstat, false), Forward(Sign(op, lstat)), s);
    SortAgrees(By(op, lstat, true), Backward(Sign(op, lstat)), s);
  }

  /**
   Distinct entries, in whatever order they are read: `-r` always gives the forward list backwards exactly when `cmp`
   is never 0 on two of them, and no third one is taken before the first and behind the second of two in line.
  */
  lemma ReverseAllOrdersIff(op: OrderBy, lstat: Name -> Stat, s: seq<Name>)
    requires Distinct(s)
    ensures (forall t: seq<Name> :: multiset(t) == multiset(s) ==>
               Sort(By(op, lstat, true), t) == Reverse(Sort(By(op, lstat, false), t)))
       <==> Consistent(Sign(op, lstat), s)
  {
    hide Sort, Reverse, By, Sign, Consistent, Distinct;
    AllBackwardsIff(Sign(op, lstat), s);
    if Consistent(Sign(op, lstat), s) {
      forall t: seq<Name> | multiset(t) == multiset(s)
        ensures Sort(By(op, lstat, true), t) == Reverse(Sort(By(op, lstat, false), t))
      {
        SortsBySign(op, lstat, t);
      }
    } else {
      var t: seq<Name> :| multiset(t) == multiset(s)
        && Sort(Backward(Sign(op, lstat)), t) != Reverse(Sort(Forward(Sign(op, lstat)), t));
      SortsBySign(op, lstat, t);
    }
  }

  /**
   One list of distinct entries: `-r` gives the forward list backwards exactly when each entry in turn splits those
   listed before it into a part that `cmp` has strictly before it and then a part strictly behind it. For entries
   whose differences keep their sign that means: exactly when no two agree in the attribute.
  */
  lemma ReverseByKeyIff(op: OrderBy, lstat: Name -> Stat, s: seq<Name>)
    requires Distinct(s)
    ensures Sort(By(op, lstat, true), s) == Reverse(Sort(By(op, lstat, false), s))
       <==> forall i :: 0 <= i < |s| ==> Splits(Sign(op, lstat), Sort(By(op, lstat, false), s[..i]), s[i])
    ensures op != 0 && Comparable(op, lstat, s) ==>
      (Sort(By(op, lstat, true), s) == Reverse(Sort(By(op, lstat, false), s))
       <==> forall a, b :: a in s && b in s && a != b ==> Key(op, lstat(a)) != Key(op, lstat(b)))
  {
    hide Sort, Reverse, By, Sign, Splits, Distinct, Comparable;
    SortBackwardsIff(Sign(op, lstat), s);
    SortsBySign(op, lstat, s);
    forall i | 0 <= i < |s|
      ensures Sort(By(op, lstat, false), s[..i]) == Sort(Forward(Sign(op, lstat)), s[..i])
    {
      SortsBySign(op, lstat, s[..i]);
    }
    if op != 0 && Comparable(op, lstat, s) { ReverseComparableIff(op, lstat, s); }
  }

  lemma ReverseComparableIff(op: OrderBy, lstat: Name -> Stat, s: seq<Name>)
    requires op != 0 && Comparable(op, lstat, s) && Distinct(s)
    ensures Sort(By(op, lstat, true), s) == Reverse(Sort(By(op, lstat, false), s))
      <==> forall a, b :: a in s && b in s && a != b ==> Key(op, lstat(a)) != Key(op, lstat(b))
  {
    hide Sort, Reverse, Key, Distinct, Ties;
    var meant := Meant(op, lstat, false);
    ByKey(op, lstat, true, s);
    ByKey(op, lstat, false, s);
    MeantIsOrdered(op, lstat, false, s);
    SortAgrees(Meant(op, lstat, true), Flip(meant), s);
    FlippedIsBackwardsIff(meant, s);
    assert OnlyEqualTied(meant, s) <==>
           forall a, b :: a in s && b in s && a != b ==> Key(op, lstat(a)) != Key(op, lstat(b));
  }

  /**
   Sizes 0, 1.5 GiB and 3 GiB, all different, in the order read: forward gives b, a, c, and `-r` gives a, b, c, which is
   not the reverse, as `cmp` goes round in a circle.
  */
  lemma CircleIsNotReversed(lstat: Name -> Stat, a: Name, b: Name, c: Name)
    requires lstat(a).size == 0 && lstat(b).size == 0x6000_0000 && lstat(c).size == 0xC000_0000
    ensures Sort(By(4, lstat, false), [a, b, c]) == [b, a, c]
    ensures Sort(By(4, lstat, true), [a, b, c]) == [a, b, c] != Reverse([b, a, c])
  {
    SortThree(By(4, lstat, false), a, b, c);
    SortThree(By(4, lstat, true), a, b, c);
    assert a != b && Reverse([b, a, c])[1] == a;
  }

  /** Three elements of which the second is moved or not, and the third is not. */
  lemma SortThree<T>(out: (T, T) -> bool, a: T, b: T, c: T)
    requires !out(if out(a, b) then a else b, c)
    ensures Sort(out, [a, b, c]) == if out(a, b) then [b, a, c] else [a, b, c]
  {
    SortTwo(out, a, b);
    var two := Sort(out, [a, b]);
    InsertAt(out, two, c, 2);
    assert [a, b, c][..2] == [a, b] && [a, b, c][2] == c;
    assert Sort(out, [a, b, c]) == two[..2] + [c] + two[2..];
  }
}
