/** Every run of the lock-free queue is, to its callers, a run of the atomic queue. */
module Linearizability {
  import opened Wrappers
  import opened QueueMachine
  import opened QueueInvariant
  import opened AtomicQueue

  /** The value linked right after node `p`. */
  function ValueAfter(h: History, p: Addr): Option<Value> {
    if p in h.pos && h.pos[p] < |h.vals| then Some(h.vals[h.pos[p]]) else None
  }

  /** How far the operation of a thread has come: `enqueue` takes effect at line 68, `dequeue` at line 93 or 99. */
  function StatusOf(h: History, pc: Pc): Status {
    match pc
    case Idle => NoCall
    case EnqSwing(_, _, _) => Done(Ack)
    case DeqEmpty => Done(Popped(None))
    case DeqReadClaimed(p) => Done(Popped(ValueAfter(h, p)))
    case DeqTake(p, _) => Done(Popped(ValueAfter(h, p)))
    case DeqDropNode(p, _) => Done(Popped(ValueAfter(h, p)))
    case _ => if pc.InEnqueue() then Pending(Enqueue(pc.v)) else Pending(Dequeue)
  }

  /** The values linked but not claimed. */
  function QueueOf(h: History): seq<Value>
    requires |h.claimers| <= |h.vals|
  {
    h.vals[|h.claimers|..]
  }

  /** The atomic object that a state stands for. */
  function Abs(s: State): Atomic
    requires |s.hist.claimers| <= |s.hist.vals|
  {
    Atomic(QueueOf(s.hist),
           seq(|s.threads|, i requires 0 <= i < |s.threads| => StatusOf(s.hist, s.threads[i].pc)))
  }

  /** The action of the atomic object that a step performs, if any. */
  function Point(s: State, a: Action): (xs: seq<AtomicAction>)
    requires Enabled(s, a) && Safe(s.mem, s.threads[a.t].pc)
    ensures |xs| <= 1
  {
    match a
    case CallEnqueue(t, v) => [Call(t, Enqueue(v))]
    case CallDequeue(t) => [Call(t, Dequeue)]
    case Advance(t) =>
      match s.threads[t].pc
      case EnqLink(_, _, p) => if s.mem.nodes[p].next.None? then [Effect(t)] else []
      case EnqSwing(_, _, _) => [Return(t)]
      case DeqTest(p) => if s.mem.nodes[p].next.None? then [Effect(t)] else []
      case DeqEmpty => [Return(t)]
      case DeqClaim(p, _) => if s.mem.head == p then [Effect(t)] else []
      case DeqDropNode(_, _) => [Return(t)]
      case _ => []
  }

  /** What the callers of the lock-free queue see of a step. */
  function EventsOf(s: State, a: Action): seq<Event>
    requires Enabled(s, a)
  {
    match a
    case CallEnqueue(t, v) => [Called(t, Enqueue(v))]
    case CallDequeue(t) => [Called(t, Dequeue)]
    case Advance(t) =>
      match s.threads[t].pc
      case EnqSwing(_, _, _) => [Returned(t, Ack)]
      case DeqEmpty => [Returned(t, Popped(None))]
      case DeqDropNode(_, res) => [Returned(t, Popped(res))]
      case _ => []
  }

  /** A null `next` seen at line 93 means that `head` is still at `p` and that the queue is empty now. */
  lemma EmptyIsRight(s: State, t: nat, p: Addr)
    requires Inv(s) && t < |s.threads| && s.threads[t].pc == DeqTest(p) && Safe(s.mem, s.threads[t].pc)
    ensures s.mem.nodes[p].next.None? <==> s.mem.head == p && Abs(s).queue == []
  {
    assert ThreadInv(s.mem, s.hist, t, s.threads[t].pc);
    NullNextIsLast(s.mem, s.hist, p);
  }

  lemma StatusKeeps(s: State, s': State, t: nat)
    requires Inv(s) && MemInv(s'.mem, s'.hist) && Evolves(s.mem, s.hist, s'.mem, s'.hist, t)
    requires t < |s.threads| == |s'.threads| && s'.threads == s.threads[t := s'.threads[t]]
    ensures Abs(s').status == Abs(s).status[t := StatusOf(s'.hist, s'.threads[t].pc)]
    ensures Abs(s).status[t] == StatusOf(s.hist, s.threads[t].pc)
    ensures Abs(s).status[t := Abs(s).status[t]] == Abs(s).status
  {
    forall u | 0 <= u < |s.threads| && u != t
      ensures StatusOf(s'.hist, s'.threads[u].pc) == StatusOf(s.hist, s.threads[u].pc)
    {
      assert ThreadInv(s.mem, s.hist, u, s.threads[u].pc);
    }
  }

  /** `xs` is what `s` to `s'` is to the atomic object, showing `events`. */
  ghost predicate Simulates(s: State, s': State, xs: seq<AtomicAction>, events: seq<Event>)
    requires Inv(s) && Inv(s')
  {
    if xs == [] then Abs(s') == Abs(s) && events == []
    else
      |xs| == 1 && Allowed(Abs(s), xs[0]) && Abs(s') == Next(Abs(s), xs[0]) && events == Shown(Abs(s), xs[0])
  }

  lemma LinkSimulates(s: State, t: nat, p: Addr)
    requires Inv(s) && t < |s.threads| && s.threads[t].pc.EnqLink? && s.threads[t].pc.p == p
    requires Safe(s.mem, s.threads[t].pc) && s.mem.nodes[p].next.None?
    requires var s' := EnqueueMove(s, t); Inv(s') && Evolves(s.mem, s.hist, s'.mem, s'.hist, t)
    ensures Simulates(s, EnqueueMove(s, t), [Effect(t)], [])
  {
    StatusKeeps(s, EnqueueMove(s, t), t);
  }

  lemma EnqueueSimulates(s: State, t: nat)
    requires Inv(s) && Enabled(s, Advance(t)) && s.threads[t].pc.InEnqueue()
    requires Safe(s.mem, s.threads[t].pc)
    requires var s' := EnqueueMove(s, t); Inv(s') && Evolves(s.mem, s.hist, s'.mem, s'.hist, t)
    ensures Simulates(s, EnqueueMove(s, t), Point(s, Advance(t)), EventsOf(s, Advance(t)))
  {
    hide ThreadInv, ChainInv, EndsInv, ValuesInv, Evolves;
    var pc := s.threads[t].pc;
    if pc.EnqLink? && s.mem.nodes[pc.p].next.None? {
      LinkSimulates(s, t, pc.p);
    } else {
      StatusKeeps(s, EnqueueMove(s, t), t);
      assert EnqueueMove(s, t).hist == s.hist;
    }
  }

  lemma ClaimSimulates(s: State, t: nat, p: Addr)
    requires Inv(s) && t < |s.threads| && s.threads[t].pc.DeqClaim? && s.threads[t].pc.p == p && s.mem.head == p
    requires Safe(s.mem, s.threads[t].pc)
    requires var s' := DequeueMove(s, t); Inv(s') && Evolves(s.mem, s.hist, s'.mem, s'.hist, t)
    ensures Simulates(s, DequeueMove(s, t), [Effect(t)], [])
  {
    var h, s' := s.hist, DequeueMove(s, t);
    StatusKeeps(s, s', t);
    assert ThreadInv(s.mem, h, t, s.threads[t].pc);
    NullNextIsLast(s.mem, h, p);
    assert ValueAfter(s'.hist, p) == Some(h.vals[|h.claimers|]);
    assert h.vals[|h.claimers|..][1..] == h.vals[|h.claimers| + 1..];
    assert Apply(Abs(s).queue, Dequeue) == (Abs(s').queue, Popped(ValueAfter(s'.hist, p)));
  }

  lemma TestSimulates(s: State, t: nat, p: Addr)
    requires Inv(s) && t < |s.threads| && s.threads[t].pc == DeqTest(p) && Safe(s.mem, s.threads[t].pc)
    requires var s' := DequeueMove(s, t); Inv(s') && Evolves(s.mem, s.hist, s'.mem, s'.hist, t)
    ensures Simulates(s, DequeueMove(s, t), if s.mem.nodes[p].next.None? then [Effect(t)] else [], [])
  {
    StatusKeeps(s, DequeueMove(s, t), t);
    EmptyIsRight(s, t, p);
  }

  /** The response returned at line 114 is the one fixed when `head` moved. */
  lemma ReturnSimulates(s: State, t: nat, p: Addr, res: Option<Value>)
    requires Inv(s) && t < |s.threads| && s.threads[t].pc == DeqDropNode(p, res) && Safe(s.mem, s.threads[t].pc)
    requires var s' := DequeueMove(s, t); Inv(s') && Evolves(s.mem, s.hist, s'.mem, s'.hist, t)
    ensures Simulates(s, DequeueMove(s, t), [Return(t)], [Returned(t, Popped(res))])
  {
    StatusKeeps(s, DequeueMove(s, t), t);
    assert ThreadInv(s.mem, s.hist, t, s.threads[t].pc);
  }

  lemma DequeueSimulates(s: State, t: nat)
    requires Inv(s) && Enabled(s, Advance(t)) && s.threads[t].pc.InDequeue()
    requires Safe(s.mem, s.threads[t].pc)
    requires var s' := DequeueMove(s, t); Inv(s') && Evolves(s.mem, s.hist, s'.mem, s'.hist, t)
    ensures Simulates(s, DequeueMove(s, t), Point(s, Advance(t)), EventsOf(s, Advance(t)))
  {
    hide ThreadInv, ChainInv, EndsInv, ValuesInv, Evolves;
    var pc := s.threads[t].pc;
    if pc.DeqClaim? && s.mem.head == pc.p {
      ClaimSimulates(s, t, pc.p);
    } else if pc.DeqTest? {
      TestSimulates(s, t, pc.p);
    } else if pc.DeqDropNode? {
      ReturnSimulates(s, t, pc.p, pc.res);
    } else {
      StatusKeeps(s, DequeueMove(s, t), t);
      assert DequeueMove(s, t).hist == s.hist;
    }
  }

  /** Every step is one action of the atomic object, or none, and shows the callers the same. */
  lemma StepSimulates(s: State, a: Action)
    requires Inv(s) && Enabled(s, a)
    ensures Safe(s.mem, s.threads[a.t].pc) && Inv(Step(s, a))
    ensures Simulates(s, Step(s, a), Point(s, a), EventsOf(s, a))
  {
    StepKeeps(s, a);
    if a.Advance? {
      if s.threads[a.t].pc.InEnqueue() { EnqueueSimulates(s, a.t); } else { DequeueSimulates(s, a.t); }
    } else {
      StatusKeeps(s, Step(s, a), a.t);
    }
  }

  /** The run of the atomic object that an interleaving performs. */
  function Points(n: nat, acts: seq<Action>): seq<AtomicAction>
    requires IsRun(n, acts)
  {
    if acts == [] then []
    else
      var last := |acts| - 1;
      Points(n, acts[..last]) + Point(After(n, acts[..last]), acts[last])
  }

  /** What the callers see of an interleaving. */
  function Observed(n: nat, acts: seq<Action>): seq<Event>
    requires IsRun(n, acts)
  {
    if acts == [] then []
    else
      var last := |acts| - 1;
      Observed(n, acts[..last]) + EventsOf(After(n, acts[..last]), acts[last])
  }

  /** Trace inclusion: every interleaving performs a run of the atomic queue with the same calls and returns. */
  lemma {:induction false} RefinesAtomic(n: nat, acts: seq<Action>)
    requires IsRun(n, acts)
    ensures Inv(After(n, acts)) && IsAtomicRun(n, Points(n, acts))
    ensures var r := Perform(n, Points(n, acts));
            r.state == Abs(After(n, acts)) && r.history == Observed(n, acts)
  {
    if acts == [] {
      InitInv(n);
    } else {
      var last := |acts| - 1;
      var s, a := After(n, acts[..last]), acts[last];
      assert After(n, acts) == Step(s, a);
      hide IsRun, After, Inv, Step, Safe, Point, EventsOf, Abs;
      RefinesAtomic(n, acts[..last]);
      StepSimulates(s, a);
      var xs, x := Points(n, acts[..last]), Point(s, a);
      if x == [] {
        assert xs + x == xs;
      } else {
        assert (xs + x)[..|xs + x| - 1] == xs;
      }
    }
  }

  lemma ClaimsAreLinked(n: nat, acts: seq<Action>)
    requires IsRun(n, acts)
    ensures Inv(After(n, acts)) && |After(n, acts).hist.claimers| <= |After(n, acts).hist.vals|
  {
    hide IsRun, After;
    Reachable(n, acts);
  }

  /** The operations of an interleaving in the order in which they took effect. */
  function Linearization(n: nat, acts: seq<Action>): seq<Entry>
    requires IsRun(n, acts) && IsAtomicRun(n, Points(n, acts))
  {
    Perform(n, Points(n, acts)).log
  }

  lemma {:induction false} PointsGrow(n: nat, acts: seq<Action>, k: nat)
    requires IsRun(n, acts) && k <= |acts|
    ensures IsRun(n, acts[..k]) && Points(n, acts[..k]) <= Points(n, acts)
  {
    if k == |acts| {
      assert acts[..k] == acts;
    } else {
      PointsGrow(n, acts[..|acts| - 1], k);
      assert acts[..|acts| - 1][..k] == acts[..k];
    }
  }

  lemma LinearizationGrows(n: nat, acts: seq<Action>, k: nat)
    requires IsRun(n, acts) && k <= |acts|
    ensures IsRun(n, acts[..k]) && IsAtomicRun(n, Points(n, acts[..k])) && IsAtomicRun(n, Points(n, acts))
    ensures Linearization(n, acts[..k]) <= Linearization(n, acts)
  {
    hide IsRun, After, Inv, Points, Perform, IsAtomicRun;
    RefinesAtomic(n, acts);
    PointsGrow(n, acts, k);
    var xs, ys := Points(n, acts), Points(n, acts[..k]);
    LogGrows(n, xs, |ys|);
    assert xs[..|ys|] == ys;
  }

  /**
   Linearizability. The effects, replayed by one thread on the lock-based queue, give the same responses and
   the same content; each thread's part of them is its calls and its responses, at most one of them pending;
   and an effect that came before some point of the run stays before everything after that point.
  */
  lemma Linearizable(n: nat, acts: seq<Action>)
    requires IsRun(n, acts)
    ensures Inv(After(n, acts)) && IsAtomicRun(n, Points(n, acts))
    ensures var log := Linearization(n, acts);
            Legal(log) && Replay(log) == Abs(After(n, acts)).queue
    ensures var r := Trace(Abs(After(n, acts)), Observed(n, acts), Linearization(n, acts));
            |r.state.status| == n && forall t :: 0 <= t < n ==> CallsMatch(r, t) && ReturnsMatch(r, t)
    ensures forall k :: 0 <= k <= |acts| ==>
              IsRun(n, acts[..k]) && IsAtomicRun(n, Points(n, acts[..k])) &&
              Linearization(n, acts[..k]) <= Linearization(n, acts)
  {
    RefinesAtomic(n, acts);
    Reachable(n, acts);
    var xs := Points(n, acts);
    LogIsSequential(n, xs);
    forall t | 0 <= t < n
      ensures var r := Perform(n, xs); |r.state.status| == n && CallsMatch(r, t) && ReturnsMatch(r, t)
    {
      LogMatchesThreads(n, xs, t);
    }
    forall k | 0 <= k <= |acts|
      ensures IsRun(n, acts[..k]) && IsAtomicRun(n, Points(n, acts[..k]))
      ensures Linearization(n, acts[..k]) <= Linearization(n, acts)
    {
      LinearizationGrows(n, acts, k);
    }
  }

  /**
   First in, first out: the values of the successful `next` exchanges, in order, are those of the successful
   `head` exchanges, in order, followed by those in the queue.
  */
  lemma {:induction false} Fifo(n: nat, acts: seq<Action>)
    requires IsRun(n, acts)
    ensures Inv(After(n, acts)) && IsAtomicRun(n, Points(n, acts))
    ensures var log := Linearization(n, acts);
            var h := After(n, acts).hist;
            && Pushed(log) == h.vals == PoppedIn(log) + Abs(After(n, acts)).queue
            && PoppedIn(log) == h.vals[..|h.claimers|]
  {
    Linearizable(n, acts);
    LegalIsFifo(Linearization(n, acts));
    PushedAreLinked(n, acts);
  }

  /** The value that an action pushes, if it is the effect of an `enqueue`. */
  function PushedBy(a: Atomic, x: AtomicAction): seq<Value>
    requires Allowed(a, x)
  {
    if x.Effect? && a.status[x.t].op.Enqueue? then [a.status[x.t].op.v] else []
  }

  /** A step links a value exactly when the atomic object pushes it. */
  lemma StepPushes(s: State, a: Action)
    requires Inv(s) && Enabled(s, a) && Safe(s.mem, s.threads[a.t].pc)
    requires Point(s, a) != [] ==> Allowed(Abs(s), Point(s, a)[0])
    ensures Step(s, a).hist.vals == s.hist.vals + if Point(s, a) == [] then [] else PushedBy(Abs(s), Point(s, a)[0])
  {}

  lemma PushedSnoc(before: Trace, x: AtomicAction)
    requires Allowed(before.state, x)
    ensures Pushed(before.log + Effected(before.state, x)) == Pushed(before.log) + PushedBy(before.state, x)
  {
    var log := before.log + Effected(before.state, x);
    if x.Effect? { assert log[..|log| - 1] == before.log; } else { assert log == before.log; }
  }

  /** The linearization grows by what the last step performed. */
  lemma LinearizationSnoc(n: nat, acts: seq<Action>, s: State, a: Action)
    requires IsRun(n, acts) && acts != [] && acts[|acts| - 1] == a && s == After(n, acts[..|acts| - 1])
    requires IsAtomicRun(n, Points(n, acts)) && IsAtomicRun(n, Points(n, acts[..|acts| - 1]))
    ensures var before := Perform(n, Points(n, acts[..|acts| - 1]));
            var x := Point(s, a);
            if x == [] then Linearization(n, acts) == before.log
            else Allowed(before.state, x[0]) && Linearization(n, acts) == before.log + Effected(before.state, x[0])
  {
    var xs, x := Points(n, acts[..|acts| - 1]), Point(s, a);
    if x == [] {
      assert xs + x == xs;
    } else {
      assert (xs + x)[..|xs + x| - 1] == xs;
    }
  }

  lemma {:induction false} PushedAreLinked(n: nat, acts: seq<Action>)
    requires IsRun(n, acts)
    ensures IsAtomicRun(n, Points(n, acts)) && Pushed(Linearization(n, acts)) == After(n, acts).hist.vals
  {
    RefinesAtomic(n, acts);
    if acts != [] {
      var init := acts[..|acts| - 1];
      var s, a := After(n, init), acts[|acts| - 1];
      PushedAreLinked(n, init);
      RefinesAtomic(n, init);
      LinearizationSnoc(n, acts, s, a);
      StepPushes(s, a);
      if Point(s, a) != [] { PushedSnoc(Perform(n, Points(n, init)), Point(s, a)[0]); }
    }
  }
}
