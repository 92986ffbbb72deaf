/** First in, first out for each producer: its values are claimed in the order in which it called `enqueue`. */
module QueueProducers {
  import opened QueueMachine
  import opened QueueInvariant
  import opened AtomicQueue
  import opened Linearizability

  /** The threads that pushed the values of `Pushed(log)`. */
  function ProducersIn(log: seq<Entry>): (r: seq<nat>)
    ensures |r| == |Pushed(log)|
  {
    if log == [] then []
    else
      var e := log[|log| - 1];
      ProducersIn(log[..|log| - 1]) + if e.op.Enqueue? then [e.t] else []
  }

  /** The values of `vals` whose producer is `t`. */
  function Of(vals: seq<Value>, producers: seq<nat>, t: nat): seq<Value>
    requires |vals| == |producers|
  {
    if vals == [] then []
    else
      var last := |vals| - 1;
      Of(vals[..last], producers[..last], t) + if producers[last] == t then [vals[last]] else []
  }

  /** The values that the operations enqueue. */
  function ValuesOf(ops: seq<Op>): seq<Value> {
    if ops == [] then []
    else ValuesOf(ops[..|ops| - 1]) + if ops[|ops| - 1].Enqueue? then [ops[|ops| - 1].v] else []
  }

  lemma OfSnoc(vals: seq<Value>, producers: seq<nat>, v: Value, p: nat, t: nat)
    requires |vals| == |producers|
    ensures Of(vals + [v], producers + [p], t) == Of(vals, producers, t) + if p == t then [v] else []
  {
    assert (vals + [v])[..|vals|] == vals && (producers + [p])[..|vals|] == producers;
  }

  lemma ValuesOfSnoc(ops: seq<Op>, op: Op)
    ensures ValuesOf(ops + [op]) == ValuesOf(ops) + if op.Enqueue? then [op.v] else []
  {
    assert (ops + [op])[..|ops|] == ops;
  }

  /** The values that `t` has pushed are those of its operations, in order. */
  lemma {:induction false} PushedByThread(log: seq<Entry>, t: nat)
    ensures Of(Pushed(log), ProducersIn(log), t) == ValuesOf(OpsIn(log, t))
    decreases |log|
  {
    hide Of, ValuesOf;
    if log == [] {
      NothingPushed(t);
      return;
    }
    var before, e := log[..|log| - 1], log[|log| - 1];
    PushedByThread(before, t);
    if e.op.Enqueue? { OfSnoc(Pushed(before), ProducersIn(before), e.op.v, e.t, t); }
    ValuesOfSnoc(OpsIn(before, t), e.op);
    assert Pushed(before) + [] == Pushed(before) && ProducersIn(before) + [] == ProducersIn(before);
    assert OpsIn(before, t) + [] == OpsIn(before, t);
  }

  lemma NothingPushed(t: nat)
    ensures Of([], [], t) == [] == ValuesOf([])
  {
  }

  lemma {:induction false} OfPrefix(vals: seq<Value>, producers: seq<nat>, c: nat, t: nat)
    requires |vals| == |producers| && c <= |vals|
    ensures Of(vals[..c], producers[..c], t) <= Of(vals, producers, t)
    decreases |vals|
  {
    if c == |vals| {
      assert vals[..c] == vals && producers[..c] == producers;
    } else {
      var last := |vals| - 1;
      OfPrefix(vals[..last], producers[..last], c, t);
      assert vals[..last][..c] == vals[..c] && producers[..last][..c] == producers[..c];
    }
  }

  /**
   At any time of any run, the values of thread `t` among those claimed, in the order of the claims, are the first
   ones that it has passed to `enqueue`, in the order of its calls.
  */
  lemma ProducerFifo(n: nat, acts: seq<Action>, t: nat)
    requires IsRun(n, acts) && t < n
    ensures Inv(After(n, acts)) && IsAtomicRun(n, Points(n, acts))
    ensures var log, c := Linearization(n, acts), |After(n, acts).hist.claimers|;
            && c <= |Pushed(log)| && PoppedIn(log) == Pushed(log)[..c]
            && Of(Pushed(log)[..c], ProducersIn(log)[..c], t) <= ValuesOf(CallsIn(Observed(n, acts), t))
  {
    hide Of, ValuesOf, ProducersIn, Pushed, PoppedIn, OpsIn, CallsIn, IsRun, After, Points, Observed, Inv;
    ClaimsAreLinked(n, acts);
    Fifo(n, acts);
    Linearizable(n, acts);
    var log := Linearization(n, acts);
    var r := Trace(Abs(After(n, acts)), Observed(n, acts), log);
    var c := |PoppedIn(log)|;
    assert Pushed(log)[..c] == PoppedIn(log);
    OfPrefix(Pushed(log), ProducersIn(log), c, t);
    PushedByThread(log, t);
    assert CallsMatch(r, t);
    match r.state.status[t] {
      case Pending(op) => ValuesOfSnoc(OpsIn(log, t), op);
      case NoCall => assert OpsIn(log, t) + [] == OpsIn(log, t);
      case Done(_) => assert OpsIn(log, t) + [] == OpsIn(log, t);
    }
  }
}
