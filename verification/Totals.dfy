/** Totals over a sequence of which one element changes at a time. */
module Totals {

  function Union<T>(ms: seq<multiset<T>>): multiset<T> {
    if ms == [] then multiset{} else Union(ms[..|ms| - 1]) + ms[|ms| - 1]
  }

  lemma {:induction false} UnionUpdate<T>(ms: seq<multiset<T>>, t: nat, m: multiset<T>)
    requires t < |ms|
    ensures Union(ms[t := m]) + ms[t] == Union(ms) + m
  {
    var last := |ms| - 1;
    var ms' := ms[t := m];
    if t < last {
      UnionUpdate(ms[..last], t, m);
      assert ms'[..last] == ms[..last][t := m];
      var before, after := Union(ms[..last]), Union(ms[..last][t := m]);
      assert Union(ms') == after + ms[last];
      assert (after + ms[last]) + ms[t] == (after + ms[t]) + ms[last];
    } else {
      assert ms'[..last] == ms[..last];
      assert Union(ms') == Union(ms[..last]) + m;
    }
  }

  lemma {:induction false} UnionEmpty<T>(ms: seq<multiset<T>>)
    requires forall i :: 0 <= i < |ms| ==> ms[i] == multiset{}
    ensures Union(ms) == multiset{}
  {
    if ms != [] { UnionEmpty(ms[..|ms| - 1]); }
  }

  lemma {:induction false} UnionMember<T>(ms: seq<multiset<T>>, t: nat)
    requires t < |ms|
    ensures ms[t] <= Union(ms)
  {
    if t < |ms| - 1 { UnionMember(ms[..|ms| - 1], t); }
  }

  lemma {:induction false} UnionAbsent<T>(ms: seq<multiset<T>>, x: T)
    requires forall i :: 0 <= i < |ms| ==> x !in ms[i]
    ensures x !in Union(ms)
  {
    if ms != [] { UnionAbsent(ms[..|ms| - 1], x); }
  }

  /** If no element holds `x` more than once, the total is the number of elements only if all hold it. */
  lemma {:induction false} UnionCount<T>(ms: seq<multiset<T>>, x: T)
    requires forall i :: 0 <= i < |ms| ==> ms[i][x] <= 1
    ensures Union(ms)[x] <= |ms|
    ensures Union(ms)[x] == |ms| <==> forall i :: 0 <= i < |ms| ==> ms[i][x] == 1
  {
    if ms != [] {
      var last := |ms| - 1;
      UnionCount(ms[..last], x);
      if Union(ms)[x] == |ms| {
        forall i | 0 <= i < |ms| ensures ms[i][x] == 1 {
          if i < last { assert ms[i] == ms[..last][i]; }
        }
      }
    }
  }

  function Sum(ns: seq<nat>): nat {
    if ns == [] then 0 else Sum(ns[..|ns| - 1]) + ns[|ns| - 1]
  }

  lemma {:induction false} SumUpdate(ns: seq<nat>, t: nat, n: nat)
    requires t < |ns|
    ensures Sum(ns[t := n]) + ns[t] == Sum(ns) + n
  {
    var last := |ns| - 1;
    if t < last {
      SumUpdate(ns[..last], t, n);
      assert ns[t := n][..last] == ns[..last][t := n];
    } else {
      assert ns[t := n][..last] == ns[..last];
    }
  }
}
