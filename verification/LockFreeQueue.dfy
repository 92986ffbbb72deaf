/**
 The lock-free queue as it is written. `Enqueue` and `Dequeue` run as thread `t`; before each of their accesses to
 shared memory the other threads take any number of the steps that are still scheduled for them.
 */
module LockFreeQueue {
  import opened Wrappers
  import opened QueueMachine
  import opened QueueInvariant
  import opened AtomicQueue
  import opened Linearizability
  import opened QueueHistory
  import opened QueueProgress

  /** The calls and the responses of thread `t` in a run. */
  function CallsOf(n: nat, acts: seq<Action>, t: nat): seq<Op>
    requires IsRun(n, acts)
  {
    CallsIn(Observed(n, acts), t)
  }

  function ReturnsOf(n: nat, acts: seq<Action>, t: nat): seq<Response>
    requires IsRun(n, acts)
  {
    ReturnsIn(Observed(n, acts), t)
  }

  lemma ObservedSnoc(n: nat, acts: seq<Action>, a: Action)
    requires IsRun(n, acts) && IsRun(n, acts + [a]) && Enabled(After(n, acts), a)
    ensures Observed(n, acts + [a]) == Observed(n, acts) + EventsOf(After(n, acts), a)
  {
    hide After, IsRun;
    assert (acts + [a])[..|acts|] == acts;
  }

  lemma SeenAppend(before: seq<Event>, es: seq<Event>, t: nat)
    requires |es| <= 1
    ensures CallsIn(before + es, t) == CallsIn(before, t) + CallsIn(es, t)
    ensures ReturnsIn(before + es, t) == ReturnsIn(before, t) + ReturnsIn(es, t)
  {
    if es == [] {
      assert before + es == before;
    } else {
      assert (before + es)[..|before|] == before && es[..0] == [];
    }
  }

  lemma EventsAreOwn(s: State, a: Action, t: nat)
    requires Enabled(s, a)
    ensures |EventsOf(s, a)| <= 1
    ensures a.t != t ==> CallsIn(EventsOf(s, a), t) == [] && ReturnsIn(EventsOf(s, a), t) == []
  {
    var es := EventsOf(s, a);
    if es != [] { assert es[..0] == []; }
  }

  lemma SeenSnoc(n: nat, acts: seq<Action>, a: Action, t: nat)
    requires IsRun(n, acts) && Enabled(After(n, acts), a)
    ensures IsRun(n, acts + [a])
    ensures CallsOf(n, acts + [a], t) == CallsOf(n, acts, t) + CallsIn(EventsOf(After(n, acts), a), t)
    ensures ReturnsOf(n, acts + [a], t) == ReturnsOf(n, acts, t) + ReturnsIn(EventsOf(After(n, acts), a), t)
    ensures a.t != t ==> CallsIn(EventsOf(After(n, acts), a), t) == [] && ReturnsIn(EventsOf(After(n, acts), a), t) == []
  {
    hide After, IsRun, Observed, EventsOf, CallsIn, ReturnsIn;
    RunsExtend(n, acts, a);
    ObservedSnoc(n, acts, a);
    EventsAreOwn(After(n, acts), a, t);
    SeenAppend(Observed(n, acts), EventsOf(After(n, acts), a), t);
  }

  lemma OthersUnchanged(s: State, a: Action, t: nat)
    requires Enabled(s, a) && Safe(s.mem, s.threads[a.t].pc) && t < |s.threads| && t != a.t
    ensures |Step(s, a).threads| == |s.threads| && Step(s, a).threads[t] == s.threads[t]
  {}

  /** What a step adds to what its own thread has called and returned. */
  lemma OwnEvents(s: State, t: nat)
    requires Enabled(s, Advance(t)) && Safe(s.mem, s.threads[t].pc)
    ensures CallsIn(EventsOf(s, Advance(t)), t) == []
    ensures ReturnsIn(EventsOf(s, Advance(t)), t) ==
              match s.threads[t].pc
              case EnqSwing(_, _, _) => [Ack]
              case DeqEmpty => [Popped(None)]
              case DeqDropNode(_, res) => [Popped(res)]
              case _ => []
  {
    var es := EventsOf(s, Advance(t));
    if es != [] { assert es[..0] == []; }
  }

  /** What thread `t` knows of itself: where it is, what it has called and returned, how often its loops have failed. */
  datatype View = View(pc: Pc, called: seq<Op>, returned: seq<Response>, enqRetries: nat, deqRetries: nat)

  function ViewOf(n: nat, acts: seq<Action>, t: nat): View
    requires IsRun(n, acts) && t < |After(n, acts).threads|
  {
    var th := After(n, acts).threads[t];
    View(th.pc, CallsOf(n, acts, t), ReturnsOf(n, acts, t), th.enqRetries, th.deqRetries)
  }

  lemma OtherView(n: nat, acts: seq<Action>, a: Action, t: nat)
    requires IsRun(n, acts) && Enabled(After(n, acts), a) && t < n && a.t != t
    ensures IsRun(n, acts + [a]) && |After(n, acts).threads| == |After(n, acts + [a]).threads| == n
    ensures ViewOf(n, acts + [a], t) == ViewOf(n, acts, t)
    ensures |After(n, acts + [a]).mem.nodes| <= |After(n, acts).mem.nodes| + 1
  {
    hide IsRun, After, Observed;
    Reachable(n, acts);
    RunsExtend(n, acts, a);
    SeenSnoc(n, acts, a, t);
    OthersUnchanged(After(n, acts), a, t);
  }

  /** What thread `t` knows after its own next step inside `enqueue`. */
  lemma EnqueueView(n: nat, acts: seq<Action>, t: nat)
    requires IsRun(n, acts) && t < |After(n, acts).threads| && ViewOf(n, acts, t).pc.InEnqueue()
    ensures var m, v, acts' := After(n, acts).mem, ViewOf(n, acts, t), acts + [Advance(t)];
            && Safe(m, v.pc) && IsRun(n, acts') && |After(n, acts').threads| == n && t < n
            && After(n, acts').mem == EnqueueAccess(m, v.pc).0
            && ViewOf(n, acts', t) == v.(pc := EnqueueAccess(m, v.pc).1,
                                         enqRetries := v.enqRetries + (if v.pc.EnqHelp? then 1 else 0),
                                         returned := v.returned + (if v.pc.EnqSwing? then [Ack] else []))
  {
    hide IsRun, After, Observed;
    Reachable(n, acts);
    NeverNull(After(n, acts), t);
    OwnEvents(After(n, acts), t);
    RunsExtend(n, acts, Advance(t));
    SeenSnoc(n, acts, Advance(t), t);
  }

  /** What thread `t` knows after its own next step inside `dequeue`. */
  lemma DequeueView(n: nat, acts: seq<Action>, t: nat)
    requires IsRun(n, acts) && t < |After(n, acts).threads| && ViewOf(n, acts, t).pc.InDequeue()
    ensures var m, v, acts' := After(n, acts).mem, ViewOf(n, acts, t), acts + [Advance(t)];
            && Safe(m, v.pc) && IsRun(n, acts') && |After(n, acts').threads| == n && t < n
            && After(n, acts').mem == DequeueAccess(m, v.pc).0
            && ViewOf(n, acts', t) ==
                 v.(pc := DequeueAccess(m, v.pc).1,
                    deqRetries := v.deqRetries + (if v.pc.DeqClaim? && m.head != v.pc.p then 1 else 0),
                    returned := v.returned + (if v.pc.DeqEmpty? then [Popped(None)]
                                              else if v.pc.DeqDropNode? then [Popped(v.pc.res)] else []))
  {
    hide IsRun, After, Observed;
    Reachable(n, acts);
    NeverNull(After(n, acts), t);
    OwnEvents(After(n, acts), t);
    RunsExtend(n, acts, Advance(t));
    SeenSnoc(n, acts, Advance(t), t);
  }

  lemma CallEnqueueView(n: nat, acts: seq<Action>, t: nat, x: Value)
    requires IsRun(n, acts) && t < |After(n, acts).threads| && ViewOf(n, acts, t).pc.Idle?
    ensures var m, v, acts' := After(n, acts).mem, ViewOf(n, acts, t), acts + [CallEnqueue(t, x)];
            && IsRun(n, acts') && |After(n, acts').threads| == n && t < n
            && After(n, acts').mem == m.(nodes := m.nodes + [Node(Some(x), None)])
            && ViewOf(n, acts', t) == v.(pc := EnqFirstLoad(x, |m.nodes|), called := v.called + [Enqueue(x)])
  {
    hide IsRun, After, Observed;
    Reachable(n, acts);
    RunsExtend(n, acts, CallEnqueue(t, x));
    SeenSnoc(n, acts, CallEnqueue(t, x), t);
    assert EventsOf(After(n, acts), CallEnqueue(t, x))[..0] == [];
  }

  lemma CallDequeueView(n: nat, acts: seq<Action>, t: nat)
    requires IsRun(n, acts) && t < |After(n, acts).threads| && ViewOf(n, acts, t).pc.Idle?
    ensures var v, acts' := ViewOf(n, acts, t), acts + [CallDequeue(t)];
            && IsRun(n, acts') && |After(n, acts').threads| == n && t < n
            && After(n, acts').mem == After(n, acts).mem
            && ViewOf(n, acts', t) == v.(pc := DeqFirstLoad, called := v.called + [Dequeue])
  {
    hide IsRun, After, Observed;
    Reachable(n, acts);
    RunsExtend(n, acts, CallDequeue(t));
    SeenSnoc(n, acts, CallDequeue(t), t);
    assert EventsOf(After(n, acts), CallDequeue(t))[..0] == [];
  }

  /** The retries of a thread stay below the number of nodes. */
  lemma RetriesBelowNodes(n: nat, acts: seq<Action>, t: nat)
    requires IsRun(n, acts) && t < n
    ensures var s := After(n, acts);
            && t < |s.threads| && ViewOf(n, acts, t).enqRetries < |s.mem.nodes|
            && ViewOf(n, acts, t).deqRetries < |s.mem.nodes|
  {
    Reachable(n, acts);
    RetriesAreOthersSuccesses(n, acts, t);
    ChainFitsNodes(After(n, acts));
  }

  lemma HeadIsEmpty(s: State)
    requires Inv(s) && Quiescent(s)
    ensures s.mem.head < |s.mem.nodes| && s.mem.nodes[s.mem.head].value.None?
  {
    assert Holds(s.mem.nodes, s.hist, s.threads, |s.hist.claimers|);
  }

  /**
   What `Drop` drops is what was not delivered: when no thread is in a call, every value linked has either been
   returned or is in the queue, and the chain that `Drop` walks has no node twice.
  */
  lemma ReturnedOrDropped(n: nat, acts: seq<Action>)
    requires IsRun(n, acts) && Quiescent(After(n, acts))
    ensures var s := After(n, acts);
            && Inv(s)
            && multiset(s.hist.vals) == multiset(s.returned) + multiset(QueueOf(s.hist))
            && forall i, j :: 0 <= i < j < |s.hist.chain| ==> s.hist.chain[i] != s.hist.chain[j]
  {
    DeliveredOnce(n, acts);
    NothingOutstanding(After(n, acts));
  }

  class LockFreeQueue {
    var nodes: seq<Node>
    var head: Addr
    var tail: Addr
    /** The number of threads, the run so far, and the steps that the other threads have yet to take. */
    const n: nat
    var acts: seq<Action>
    var env: seq<Action>

    ghost predicate Valid()
      reads this
    {
      && IsRun(n, acts)
      && After(n, acts).mem == Memory(nodes, head, tail)
      && |After(n, acts).threads| == n
    }

    ghost function V(t: nat): View
      reads this
      requires Valid() && t < n
    {
      ViewOf(n, acts, t)
    }

    /** No thread's loops can fail more often than this. */
    ghost function Fuel(): nat
      reads this
    {
      |nodes| + |env|
    }

    constructor (n: nat, env: seq<Action>)
      ensures Valid() && acts == [] && this.n == n && this.env == env
    {
      this.n := n;
      this.env := env;
      nodes := [Node(None, None)];
      head, tail := 0, 0;
      acts := [];
    }

    lemma FuelLeft(t: nat)
      requires Valid() && t < n
      ensures V(t).enqRetries < Fuel() && V(t).deqRetries < Fuel()
    {
      RetriesBelowNodes(n, acts, t);
    }

    /** Another thread takes the step `a`. */
    method OtherStep(t: nat, a: Action)
      requires Valid() && t < n && a.t != t && Enabled(After(n, acts), a)
      modifies this`acts, this`nodes, this`head, this`tail
      ensures Valid() && V(t) == old(V(t)) && acts == old(acts) + [a] && |nodes| <= old(|nodes|) + 1
    {
      hide IsRun, After, ViewOf;
      OtherView(n, acts, a, t);
      acts := acts + [a];
      var m := After(n, acts).mem;
      nodes, head, tail := m.nodes, m.head, m.tail;
    }

    /** The other threads take any number of their steps. */
    method Interfere(t: nat)
      requires Valid() && t < n
      modifies this
      ensures Valid() && V(t) == old(V(t)) && old(acts) <= acts && Fuel() <= old(Fuel())
    {
      var k :| 0 <= k <= |env|;
      while k > 0
        invariant k <= |env| && Valid() && V(t) == old(V(t)) && old(acts) <= acts && Fuel() <= old(Fuel())
      {
        var a := env[0];
        env, k := env[1..], k - 1;
        if a.t != t && Enabled(After(n, acts), a) {
          OtherStep(t, a);
        }
      }
    }

    /** `self.tail.load()`, lines 61 and 64. */
    method LoadTail(t: nat) returns (p: Addr)
      requires Valid() && t < n && (V(t).pc.EnqFirstLoad? || V(t).pc.EnqLoadTail?)
      modifies this`acts
      ensures Valid() && acts == old(acts) + [Advance(t)] && p == tail
      ensures var v := old(V(t));
              V(t) == v.(pc := if v.pc.EnqFirstLoad? then EnqLoadTail(v.pc.v, v.pc.q) else EnqLink(v.pc.v, v.pc.q, p))
    {
      hide IsRun, After, ViewOf;
      EnqueueView(n, acts, t);
      p := tail;
      acts := acts + [Advance(t)];
    }

    /** `(*p).next.compare_exchange(null, q)` of lines 66-70. */
    method ExchangeNext(t: nat, v: Value, q: Addr, p: Addr) returns (succ: bool)
      requires Valid() && t < n && V(t).pc == EnqLink(v, q, p)
      modifies this`acts, this`nodes
      ensures Valid() && acts == old(acts) + [Advance(t)] && |nodes| == old(|nodes|)
      ensures V(t) == old(V(t)).(pc := if succ then EnqSwing(v, q, p) else EnqReadNext(v, q, p))
    {
      hide IsRun, After, ViewOf;
      EnqueueView(n, acts, t);
      succ := nodes[p].next.None?;
      if succ {
        nodes := nodes[p := nodes[p].(next := Some(q))];
      }
      acts := acts + [Advance(t)];
    }

    /** `(*p).next.load()` of line 75. */
    method LoadNext(t: nat, v: Value, q: Addr, p: Addr) returns (next: Option<Addr>)
      requires Valid() && t < n && V(t).pc == EnqReadNext(v, q, p)
      modifies this`acts
      ensures Valid() && acts == old(acts) + [Advance(t)]
      ensures V(t) == old(V(t)).(pc := EnqHelp(v, q, p, next))
    {
      hide IsRun, After, ViewOf;
      EnqueueView(n, acts, t);
      next := nodes[p].next;
      acts := acts + [Advance(t)];
    }

    /** The helping exchange of `tail`, lines 73-78, which ends a failed iteration. */
    method HelpTail(t: nat, v: Value, q: Addr, p: Addr, next: Option<Addr>)
      requires Valid() && t < n && V(t).pc == EnqHelp(v, q, p, next)
      modifies this`acts, this`tail
      ensures Valid() && acts == old(acts) + [Advance(t)]
      ensures V(t) == old(V(t)).(pc := EnqLoadTail(v, q), enqRetries := old(V(t)).enqRetries + 1)
    {
      hide IsRun, After, ViewOf;
      EnqueueView(n, acts, t);
      if tail == p {
        tail := next.value;
      }
      acts := acts + [Advance(t)];
    }

    /** The exchange of `tail` after a successful link, lines 84-85, and the return. */
    method SwingTail(t: nat, v: Value, q: Addr, p: Addr)
      requires Valid() && t < n && V(t).pc == EnqSwing(v, q, p)
      modifies this`acts, this`tail
      ensures Valid() && acts == old(acts) + [Advance(t)]
      ensures V(t) == old(V(t)).(pc := Idle, returned := old(V(t)).returned + [Ack])
    {
      hide IsRun, After, ViewOf;
      EnqueueView(n, acts, t);
      if tail == p {
        tail := q;
      }
      acts := acts + [Advance(t)];
    }

    /** `Box::leak(Box::new(Node::new(value)))`. */
    method Allocate(t: nat, value: Value) returns (q: Addr)
      requires Valid() && t < n && V(t).pc.Idle?
      modifies this`acts, this`nodes
      ensures Valid() && acts == old(acts) + [CallEnqueue(t, value)]
      ensures V(t) == old(V(t)).(pc := EnqFirstLoad(value, q), called := old(V(t)).called + [AtomicQueue.Enqueue(value)])
    {
      hide IsRun, After, ViewOf;
      CallEnqueueView(n, acts, t, value);
      q := |nodes|;
      nodes := nodes + [Node(Some(value), None)];
      acts := acts + [CallEnqueue(t, value)];
    }

    /** The statement of lines 73-78: load `p.next`, then help `tail` past `p`. */
    method Help(t: nat, v: Value, q: Addr, p: Addr)
      requires Valid() && t < n && V(t).pc == EnqReadNext(v, q, p)
      modifies this
      ensures Valid() && old(acts) <= acts && Fuel() <= old(Fuel())
      ensures V(t) == old(V(t)).(pc := EnqLoadTail(v, q), enqRetries := old(V(t)).enqRetries + 1)
    {
      hide IsRun, After, ViewOf;
      Interfere(t);
      var next := LoadNext(t, v, q, p);
      Interfere(t);
      HelpTail(t, v, q, p, next);
    }

    /**
     However the other threads interfere, `enqueue` returns, and it has been one call and one acknowledged
     operation of the atomic queue.
    */
    method Enqueue(t: nat, value: Value)
      requires Valid() && t < n && V(t).pc.Idle?
      modifies this
      ensures Valid() && old(acts) <= acts && V(t).pc.Idle?
      ensures V(t).called == old(V(t)).called + [AtomicQueue.Enqueue(value)]
      ensures V(t).returned == old(V(t)).returned + [Ack]
    {
      hide IsRun, After, Valid, V;
      var q := Allocate(t, value);
      Interfere(t);
      var p := LoadTail(t);
      ghost var v := V(t);
      while true
        invariant Valid() && old(acts) <= acts && v.pc == EnqLoadTail(value, q)
        invariant V(t) == v.(enqRetries := V(t).enqRetries)
        decreases Fuel() - V(t).enqRetries
      {
        FuelLeft(t);
        Interfere(t);
        p := LoadTail(t);
        Interfere(t);
        var succ := ExchangeNext(t, value, q, p);
        if !succ {
          Help(t, value, q, p);
        } else {
          break;
        }
      }
      Interfere(t);
      SwingTail(t, value, q, p);
    }

    /** The start of a call of `dequeue`. */
    method StartDequeue(t: nat)
      requires Valid() && t < n && V(t).pc.Idle?
      modifies this`acts
      ensures Valid() && acts == old(acts) + [CallDequeue(t)]
      ensures V(t) == old(V(t)).(pc := DeqFirstLoad, called := old(V(t)).called + [AtomicQueue.Dequeue])
    {
      hide IsRun, After, ViewOf;
      CallDequeueView(n, acts, t);
      acts := acts + [CallDequeue(t)];
    }

    /** `self.head.load()`, lines 89 and 91. */
    method LoadHead(t: nat) returns (p: Addr)
      requires Valid() && t < n && (V(t).pc.DeqFirstLoad? || V(t).pc.DeqLoadHead?)
      modifies this`acts
      ensures Valid() && acts == old(acts) + [Advance(t)]
      ensures V(t) == old(V(t)).(pc := if old(V(t)).pc.DeqFirstLoad? then DeqLoadHead else DeqTest(p))
    {
      hide IsRun, After, ViewOf;
      DequeueView(n, acts, t);
      p := head;
      acts := acts + [Advance(t)];
    }

    /** The test `(*p).next.load() == null` of line 93. */
    method NextIsNull(t: nat, p: Addr) returns (isNull: bool)
      requires Valid() && t < n && V(t).pc == DeqTest(p)
      modifies this`acts
      ensures Valid() && acts == old(acts) + [Advance(t)]
      ensures V(t) == old(V(t)).(pc := if isNull then DeqEmpty else DeqReadNext(p))
    {
      hide IsRun, After, ViewOf;
      DequeueView(n, acts, t);
      isNull := nodes[p].next.None?;
      acts := acts + [Advance(t)];
    }

    /** `return None` of line 94. */
    method ReturnEmpty(t: nat)
      requires Valid() && t < n && V(t).pc == DeqEmpty
      modifies this`acts
      ensures Valid() && acts == old(acts) + [Advance(t)]
      ensures V(t) == old(V(t)).(pc := Idle, returned := old(V(t)).returned + [Popped(None)])
    {
      hide IsRun, After, ViewOf;
      DequeueView(n, acts, t);
      acts := acts + [Advance(t)];
    }

    /** `(*p).next.load()` of lines 101 and 111. */
    method LoadNextOf(t: nat, p: Addr) returns (next: Option<Addr>)
      requires Valid() && t < n && (V(t).pc == DeqReadNext(p) || V(t).pc == DeqReadClaimed(p))
      modifies this`acts
      ensures Valid() && acts == old(acts) + [Advance(t)]
      ensures V(t) == old(V(t)).(pc := if old(V(t)).pc.DeqReadNext? then DeqClaim(p, next) else DeqTake(p, next))
    {
      hide IsRun, After, ViewOf;
      DequeueView(n, acts, t);
      next := nodes[p].next;
      acts := acts + [Advance(t)];
    }

    /** The exchange of `head` of lines 97-105. */
    method ExchangeHead(t: nat, p: Addr, next: Option<Addr>) returns (succ: bool)
      requires Valid() && t < n && V(t).pc == DeqClaim(p, next)
      modifies this`acts, this`head
      ensures Valid() && acts == old(acts) + [Advance(t)]
      ensures V(t) == old(V(t)).(pc := if succ then DeqReadClaimed(p) else DeqLoadHead,
                                 deqRetries := old(V(t)).deqRetries + if succ then 0 else 1)
    {
      hide IsRun, After, ViewOf;
      DequeueView(n, acts, t);
      succ := head == p;
      if succ {
        head := next.value;
      }
      acts := acts + [Advance(t)];
    }

    /** `value.take()` of line 111. */
    method TakeValue(t: nat, p: Addr, a: Option<Addr>) returns (res: Option<Value>)
      requires Valid() && t < n && V(t).pc == DeqTake(p, a)
      modifies this`acts, this`nodes
      ensures Valid() && acts == old(acts) + [Advance(t)] && |nodes| == old(|nodes|)
      ensures V(t) == old(V(t)).(pc := DeqDropNode(p, res))
    {
      hide IsRun, After, ViewOf;
      DequeueView(n, acts, t);
      res := nodes[a.value].value;
      nodes := nodes[a.value := nodes[a.value].(value := None)];
      acts := acts + [Advance(t)];
    }

    /** `p.drop_in_place()` of line 112, and the return. */
    method DropNode(t: nat, p: Addr, res: Option<Value>)
      requires Valid() && t < n && V(t).pc == DeqDropNode(p, res)
      modifies this`acts
      ensures Valid() && acts == old(acts) + [Advance(t)]
      ensures V(t) == old(V(t)).(pc := Idle, returned := old(V(t)).returned + [Popped(res)])
    {
      hide IsRun, After, ViewOf;
      DequeueView(n, acts, t);
      acts := acts + [Advance(t)];
    }

    /** Lines 97-105: load `p.next`, then try to move `head` there. */
    method Claim(t: nat, p: Addr) returns (succ: bool)
      requires Valid() && t < n && V(t).pc == DeqReadNext(p)
      modifies this
      ensures Valid() && old(acts) <= acts && Fuel() <= old(Fuel())
      ensures V(t) == old(V(t)).(pc := if succ then DeqReadClaimed(p) else DeqLoadHead,
                                 deqRetries := old(V(t)).deqRetries + if succ then 0 else 1)
    {
      hide IsRun, After, ViewOf;
      Interfere(t);
      var next := LoadNextOf(t, p);
      Interfere(t);
      succ := ExchangeHead(t, p, next);
    }

    /** Lines 111-114. */
    method Finish(t: nat, p: Addr) returns (res: Option<Value>)
      requires Valid() && t < n && V(t).pc == DeqReadClaimed(p)
      modifies this
      ensures Valid() && old(acts) <= acts
      ensures V(t) == old(V(t)).(pc := Idle, returned := old(V(t)).returned + [Popped(res)])
    {
      hide IsRun, After, ViewOf;
      Interfere(t);
      var a := LoadNextOf(t, p);
      Interfere(t);
      res := TakeValue(t, p, a);
      Interfere(t);
      DropNode(t, p, res);
    }

    /**
     However the other threads interfere, `dequeue` returns, and it has been one call and one operation of the
     atomic queue, with the same result.
    */
    method Dequeue(t: nat) returns (res: Option<Value>)
      requires Valid() && t < n && V(t).pc.Idle?
      modifies this
      ensures Valid() && old(acts) <= acts && V(t).pc.Idle?
      ensures V(t).called == old(V(t)).called + [AtomicQueue.Dequeue]
      ensures V(t).returned == old(V(t)).returned + [Popped(res)]
    {
      hide IsRun, After, Valid, V;
      StartDequeue(t);
      Interfere(t);
      var p := LoadHead(t);
      ghost var v := V(t);
      while true
        invariant Valid() && old(acts) <= acts && v.pc == DeqLoadHead
        invariant V(t) == v.(deqRetries := V(t).deqRetries)
        decreases Fuel() - V(t).deqRetries
      {
        FuelLeft(t);
        Interfere(t);
        p := LoadHead(t);
        Interfere(t);
        var isNull := NextIsNull(t, p);
        if isNull {
          ReturnEmpty(t);
          return None;
        }
        var succ := Claim(t, p);
        if succ {
          break;
        }
      }
      res := Finish(t, p);
    }

    /** The loop of `Drop::drop`, lines 32-40, over the nodes that it meets. */
    method Walk(ghost path: seq<Addr>, ghost queue: seq<Value>) returns (visited: seq<Addr>, values: seq<Value>)
      requires PathFrom(nodes, head, path) && |path| == |queue| + 1 && nodes[head].value.None?
      requires forall i :: 1 <= i < |path| ==> nodes[path[i]].value == Some(queue[i - 1])
      ensures visited == path && values == queue
    {
      visited, values := [], [];
      var cur := Some(head);
      ghost var k := 0;
      while cur.Some?
        invariant 0 <= k <= |path| && visited == path[..k]
        invariant cur == if k < |path| then Some(path[k]) else None
        invariant values == queue[..if k == 0 then 0 else k - 1]
        decreases |path| - k
      {
        assert nodes[path[k]].next == if k + 1 < |path| then Some(path[k + 1]) else None;
        assert path[..k + 1] == path[..k] + [path[k]];
        assert k > 0 ==> queue[..k] == queue[..k - 1] + [queue[k - 1]];
        var node := nodes[cur.value];
        if node.value.Some? {
          values := values + [node.value.value];
        }
        visited := visited + [cur.value];
        cur := node.next;
        k := k + 1;
      }
      assert path[..k] == path && queue[..k - 1] == queue;
    }

    /**
     `Drop::drop` on a queue that no thread is using: it visits the nodes from `head` to the end, once each, and the
     values that it drops with them are those in the queue.
    */
    method Drop() returns (visited: seq<Addr>, values: seq<Value>)
      requires Valid() && Quiescent(After(n, acts))
      ensures var h := After(n, acts).hist;
              |h.claimers| < |h.chain| == |h.vals| + 1 && visited == h.chain[|h.claimers|..] && values == QueueOf(h)
    {
      ghost var s := After(n, acts);
      Reachable(n, acts);
      QueueIsInMemory(s);
      HeadIsEmpty(s);
      assert |s.hist.claimers| < |s.hist.chain| == |s.hist.vals| + 1;
      hide IsRun, After, Inv;
      visited, values := Walk(s.hist.chain[|s.hist.claimers|..], QueueOf(s.hist));
    }
  }
}
