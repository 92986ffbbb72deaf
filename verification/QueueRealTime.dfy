/** Real-time order: an operation that has returned before another one is called takes effect before it. */
module QueueRealTime {
  import opened QueueMachine
  import opened QueueInvariant
  import opened AtomicQueue
  import opened Linearizability

  /** The entry at `a` is the operation number `i` of thread `t`. */
  ghost predicate IsOperation(log: seq<Entry>, a: nat, t: nat, i: nat) {
    a < |log| && log[a].t == t && |OpsIn(log[..a], t)| == i
  }

  lemma {:induction false} AsManyResponses(log: seq<Entry>, t: nat)
    ensures |ResponsesIn(log, t)| == |OpsIn(log, t)|
    decreases |log|
  {
    if log != [] { AsManyResponses(log[..|log| - 1], t); }
  }

  lemma {:induction false} OpsGrow(log: seq<Entry>, k: nat, t: nat)
    requires k <= |log|
    ensures OpsIn(log[..k], t) <= OpsIn(log, t)
    ensures ResponsesIn(log[..k], t) <= ResponsesIn(log, t)
    decreases |log|
  {
    if k == |log| {
      assert log[..k] == log;
    } else {
      OpsGrow(log[..|log| - 1], k, t);
      assert log[..|log| - 1][..k] == log[..k];
    }
  }

  /** The operation number `i` is the one that the thread's part of the log has there. */
  lemma OperationIs(log: seq<Entry>, a: nat, t: nat, i: nat)
    requires IsOperation(log, a, t, i)
    ensures i < |OpsIn(log, t)| == |ResponsesIn(log, t)|
    ensures OpsIn(log, t)[i] == log[a].op && ResponsesIn(log, t)[i] == log[a].resp
  {
    AsManyResponses(log[..a], t);
    AsManyResponses(log, t);
    assert log[..a + 1][..a] == log[..a];
    OpsGrow(log, a + 1, t);
  }

  lemma {:induction false} FindOperation(log: seq<Entry>, t: nat, i: nat) returns (a: nat)
    requires i < |OpsIn(log, t)|
    ensures IsOperation(log, a, t, i)
    decreases |log|
  {
    var before := log[..|log| - 1];
    if i < |OpsIn(before, t)| {
      a := FindOperation(before, t, i);
      assert before[..a] == log[..a];
    } else {
      a := |log| - 1;
    }
  }

  /** The operations numbered up to a thread's count in a prefix of the log are those in the prefix. */
  lemma InPrefixIff(log: seq<Entry>, m: nat, a: nat, t: nat, i: nat)
    requires m <= |log| && IsOperation(log, a, t, i)
    ensures a < m <==> i < |OpsIn(log[..m], t)|
  {
    if a < m {
      assert log[..m][..a] == log[..a] && log[..m][a] == log[a];
      OperationIs(log[..m], a, t, i);
    } else {
      assert log[..a][..m] == log[..m];
      OpsGrow(log[..a], m, t);
    }
  }

  /**
   When operation `i` of thread `t` has returned and operation `j` of thread `u` has not yet been called, the first
   takes effect before the second, with the call and the response that the callers saw.
  */
  lemma RealTime(n: nat, acts: seq<Action>, k: nat, t: nat, i: nat, u: nat, j: nat)
    requires IsRun(n, acts) && k <= |acts| && IsRun(n, acts[..k]) && t < n && u < n
    requires i < |ReturnsIn(Observed(n, acts[..k]), t)| && |CallsIn(Observed(n, acts[..k]), u)| <= j
    ensures Inv(After(n, acts)) && IsAtomicRun(n, Points(n, acts))
    ensures var log := Linearization(n, acts);
            && (exists a :: IsOperation(log, a, t, i))
            && forall a, b :: IsOperation(log, a, t, i) && IsOperation(log, b, u, j) ==> a < b
  {
    hide IsRun, After, Observed, Points, CallsIn, ReturnsIn, OpsIn, ResponsesIn, Inv, IsOperation;
    Linearizable(n, acts);
    Linearizable(n, acts[..k]);
    LinearizationGrows(n, acts, k);
    ClaimsAreLinked(n, acts[..k]);
    var log, early := Linearization(n, acts), Linearization(n, acts[..k]);
    var r := Trace(Abs(After(n, acts[..k])), Observed(n, acts[..k]), early);
    assert CallsMatch(r, u) && ReturnsMatch(r, t);
    AsManyResponses(early, t);
    assert early == log[..|early|];
    OpsGrow(log, |early|, t);
    var first := FindOperation(log, t, i);
    forall a, b | IsOperation(log, a, t, i) && IsOperation(log, b, u, j)
      ensures a < b
    {
      InPrefixIff(log, |early|, a, t, i);
      InPrefixIff(log, |early|, b, u, j);
    }
  }

  /** The operation number `i` of thread `t` in the linearization is its call number `i`, with its response. */
  lemma OperationSeen(n: nat, acts: seq<Action>, a: nat, t: nat, i: nat)
    requires IsRun(n, acts) && t < n && IsAtomicRun(n, Points(n, acts))
    requires IsOperation(Linearization(n, acts), a, t, i)
    ensures var e, seen := Linearization(n, acts)[a], Observed(n, acts);
            && i < |CallsIn(seen, t)| && CallsIn(seen, t)[i] == e.op
            && (i < |ReturnsIn(seen, t)| ==> ReturnsIn(seen, t)[i] == e.resp)
  {
    hide IsRun, After, Observed, Points, CallsIn, ReturnsIn, OpsIn, ResponsesIn, Inv;
    Linearizable(n, acts);
    ClaimsAreLinked(n, acts);
    var r := Trace(Abs(After(n, acts)), Observed(n, acts), Linearization(n, acts));
    assert CallsMatch(r, t) && ReturnsMatch(r, t);
    OperationIs(Linearization(n, acts), a, t, i);
  }
}
