/**
 The atomic queue object: threads call operations, each operation takes effect on the lock-based queue
 in a single step, once, after its call and before its return.
 */
module AtomicQueue {
  import opened Wrappers
  import opened QueueMachine
  import LockBasedQueue

  datatype Op = Enqueue(v: Value) | Dequeue
  datatype Response = Ack | Popped(res: Option<Value>)
  datatype Status = NoCall | Pending(op: Op) | Done(resp: Response)

  datatype Atomic = Atomic(queue: seq<Value>, status: seq<Status>)

  datatype AtomicAction = Call(t: nat, op: Op) | Effect(t: nat) | Return(t: nat)

  /** What the callers see. */
  datatype Event = Called(t: nat, op: Op) | Returned(t: nat, resp: Response)

  /** One operation of the sequential history. */
  datatype Entry = Entry(t: nat, op: Op, resp: Response)

  /** One operation on the lock-based queue. */
  function Apply(queue: seq<Value>, op: Op): (seq<Value>, Response) {
    match op
    case Enqueue(v) => (LockBasedQueue.PushBack(queue, v), Ack)
    case Dequeue => var (rest, res) := LockBasedQueue.PopFront(queue); (rest, Popped(res))
  }

  function Start(n: nat): Atomic {
    Atomic([], seq(n, _ => NoCall))
  }

  predicate Allowed(a: Atomic, x: AtomicAction) {
    x.t < |a.status| &&
    match x
    case Call(t, _) => a.status[t].NoCall?
    case Effect(t) => a.status[t].Pending?
    case Return(t) => a.status[t].Done?
  }

  function Next(a: Atomic, x: AtomicAction): Atomic
    requires Allowed(a, x)
  {
    match x
    case Call(t, op) => a.(status := a.status[t := Pending(op)])
    case Effect(t) =>
      var (queue, resp) := Apply(a.queue, a.status[t].op);
      Atomic(queue, a.status[t := Done(resp)])
    case Return(t) => a.(status := a.status[t := NoCall])
  }

  /** What one action shows to the callers. */
  function Shown(a: Atomic, x: AtomicAction): seq<Event>
    requires Allowed(a, x)
  {
    match x
    case Call(t, op) => [Called(t, op)]
    case Effect(_) => []
    case Return(t) => [Returned(t, a.status[t].resp)]
  }

  /** What one action adds to the sequential history. */
  function Effected(a: Atomic, x: AtomicAction): seq<Entry>
    requires Allowed(a, x)
  {
    if x.Effect? then [Entry(x.t, a.status[x.t].op, Apply(a.queue, a.status[x.t].op).1)] else []
  }

  /** A run of the atomic object: its state, what the callers saw, and the operations in order of effect. */
  datatype Trace = Trace(state: Atomic, history: seq<Event>, log: seq<Entry>)

  predicate IsAtomicRun(n: nat, xs: seq<AtomicAction>)
    decreases |xs|, 0
  {
    xs == [] || (IsAtomicRun(n, xs[..|xs| - 1]) && Allowed(Perform(n, xs[..|xs| - 1]).state, xs[|xs| - 1]))
  }

  function Perform(n: nat, xs: seq<AtomicAction>): Trace
    requires IsAtomicRun(n, xs)
    decreases |xs|, 1
  {
    if xs == [] then Trace(Start(n), [], [])
    else
      var x := xs[|xs| - 1];
      var before := Perform(n, xs[..|xs| - 1]);
      Trace(Next(before.state, x), before.history + Shown(before.state, x), before.log + Effected(before.state, x))
  }

  /** The content of a lock-based queue on which one thread has run the operations of `log`. */
  function Replay(log: seq<Entry>): seq<Value> {
    if log == [] then [] else Apply(Replay(log[..|log| - 1]), log[|log| - 1].op).0
  }

  /** The responses in `log` are those that the lock-based queue gives. */
  predicate Legal(log: seq<Entry>) {
    log == [] ||
    (Legal(log[..|log| - 1]) && log[|log| - 1].resp == Apply(Replay(log[..|log| - 1]), log[|log| - 1].op).1)
  }

  function OpsIn(log: seq<Entry>, t: nat): seq<Op> {
    if log == [] then []
    else OpsIn(log[..|log| - 1], t) + if log[|log| - 1].t == t then [log[|log| - 1].op] else []
  }

  function ResponsesIn(log: seq<Entry>, t: nat): seq<Response> {
    if log == [] then []
    else ResponsesIn(log[..|log| - 1], t) + if log[|log| - 1].t == t then [log[|log| - 1].resp] else []
  }

  function CallsIn(history: seq<Event>, t: nat): seq<Op> {
    if history == [] then []
    else
      var e := history[|history| - 1];
      CallsIn(history[..|history| - 1], t) + if e.Called? && e.t == t then [e.op] else []
  }

  function ReturnsIn(history: seq<Event>, t: nat): seq<Response> {
    if history == [] then []
    else
      var e := history[|history| - 1];
      ReturnsIn(history[..|history| - 1], t) + if e.Returned? && e.t == t then [e.resp] else []
  }

  function Pushed(log: seq<Entry>): seq<Value> {
    if log == [] then []
    else
      var e := log[|log| - 1];
      Pushed(log[..|log| - 1]) + if e.op.Enqueue? then [e.op.v] else []
  }

  function PoppedIn(log: seq<Entry>): seq<Value> {
    if log == [] then []
    else
      var e := log[|log| - 1];
      PoppedIn(log[..|log| - 1]) + if e.resp.Popped? && e.resp.res.Some? then [e.resp.res.value] else []
  }

  /** The log is a legal sequential history of the lock-based queue, ending in the current content. */
  lemma {:induction false} LogIsSequential(n: nat, xs: seq<AtomicAction>)
    requires IsAtomicRun(n, xs)
    ensures var r := Perform(n, xs); Legal(r.log) && Replay(r.log) == r.state.queue
  {
    if xs != [] {
      var before := Perform(n, xs[..|xs| - 1]);
      LogIsSequential(n, xs[..|xs| - 1]);
      if xs[|xs| - 1].Effect? {
        assert Perform(n, xs).log[..|before.log|] == before.log;
      } else {
        assert Perform(n, xs).log == before.log;
      }
    }
  }

  /** Each thread's part of the log is its calls in order, without the one that is still pending. */
  ghost predicate CallsMatch(r: Trace, t: nat)
    requires t < |r.state.status|
  {
    CallsIn(r.history, t) ==
      OpsIn(r.log, t) + (match r.state.status[t] case Pending(op) => [op] case _ => [])
  }

  /** Each thread's responses are what it has returned, followed by the one it has yet to return. */
  ghost predicate ReturnsMatch(r: Trace, t: nat)
    requires t < |r.state.status|
  {
    ResponsesIn(r.log, t) ==
      ReturnsIn(r.history, t) + (match r.state.status[t] case Done(resp) => [resp] case _ => [])
  }

  lemma EffectMatches(before: Trace, r: Trace, x: AtomicAction, t: nat)
    requires t < |before.state.status| && CallsMatch(before, t) && ReturnsMatch(before, t)
    requires x.Effect? && Allowed(before.state, x) && r.state == Next(before.state, x)
    requires r.history == before.history && r.log == before.log + Effected(before.state, x)
    ensures CallsMatch(r, t) && ReturnsMatch(r, t)
  {
    assert r.log[..|r.log| - 1] == before.log;
  }

  lemma CallOrReturnMatches(before: Trace, r: Trace, x: AtomicAction, t: nat)
    requires t < |before.state.status| && CallsMatch(before, t) && ReturnsMatch(before, t)
    requires !x.Effect? && Allowed(before.state, x) && r.state == Next(before.state, x)
    requires r.log == before.log && r.history == before.history + Shown(before.state, x)
    ensures CallsMatch(r, t) && ReturnsMatch(r, t)
  {
    assert r.history[..|r.history| - 1] == before.history;
  }

  lemma {:induction false} LogMatchesThreads(n: nat, xs: seq<AtomicAction>, t: nat)
    requires IsAtomicRun(n, xs) && t < n
    ensures var r := Perform(n, xs); |r.state.status| == n && CallsMatch(r, t) && ReturnsMatch(r, t)
  {
    if xs != [] {
      var x := xs[|xs| - 1];
      LogMatchesThreads(n, xs[..|xs| - 1], t);
      if x.Effect? {
        EffectMatches(Perform(n, xs[..|xs| - 1]), Perform(n, xs), x, t);
      } else {
        CallOrReturnMatches(Perform(n, xs[..|xs| - 1]), Perform(n, xs), x, t);
      }
    }
  }

  /** Effects keep their order: what is logged before a later call or return stays in front. */
  lemma {:induction false} LogGrows(n: nat, xs: seq<AtomicAction>, k: nat)
    requires IsAtomicRun(n, xs) && k <= |xs|
    ensures IsAtomicRun(n, xs[..k])
    ensures Perform(n, xs[..k]).log <= Perform(n, xs).log && Perform(n, xs[..k]).history <= Perform(n, xs).history
  {
    if k == |xs| {
      assert xs[..k] == xs;
    } else {
      LogGrows(n, xs[..|xs| - 1], k);
      assert xs[..|xs| - 1][..k] == xs[..k];
    }
  }

  /** First in, first out: what was popped is a prefix of what was pushed, and the rest is in the queue. */
  lemma {:induction false} LegalIsFifo(log: seq<Entry>)
    requires Legal(log)
    ensures Pushed(log) == PoppedIn(log) + Replay(log)
  {
    if log != [] {
      var before, e := log[..|log| - 1], log[|log| - 1];
      LegalIsFifo(before);
      FifoSnoc(Pushed(before), PoppedIn(before), Replay(before), e);
    }
  }

  lemma FifoSnoc(pushed: seq<Value>, popped: seq<Value>, queue: seq<Value>, e: Entry)
    requires pushed == popped + queue && e.resp == Apply(queue, e.op).1
    ensures pushed + (if e.op.Enqueue? then [e.op.v] else []) ==
            popped + (if e.resp.Popped? && e.resp.res.Some? then [e.resp.res.value] else []) + Apply(queue, e.op).0
  {}
}
