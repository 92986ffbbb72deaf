/** Lock-freedom: how often a loop can fail, and how long a run with a given number of calls can be. */
module QueueProgress {
  import opened QueueMachine
  import opened QueueInvariant

  /** A failed iteration of `enqueue` leaves `tail` strictly past the node it had loaded; of `dequeue`, `head`. */
  ghost predicate RetriesBounded(m: Memory, h: History, th: Thread)
    requires MemInv(m, h)
  {
    && th.enqRetries <=
       (if (th.pc.EnqLink? || th.pc.EnqReadNext? || th.pc.EnqHelp?) && th.pc.p in h.pos then h.pos[th.pc.p]
        else h.pos[m.tail])
    && th.deqRetries <=
       (if (th.pc.DeqTest? || th.pc.DeqReadNext? || th.pc.DeqClaim?) && th.pc.p in h.pos then h.pos[th.pc.p]
        else |h.claimers|)
  }

  /** A failed iteration of `enqueue` ends with `tail` strictly past the node it had loaded. */
  lemma HelpingAdvancesTail(s: State, t: nat)
    requires Inv(s) && t < |s.threads| && s.threads[t].pc.EnqHelp?
    ensures Safe(s.mem, s.threads[t].pc)
    ensures var p, s' := s.threads[t].pc.p, EnqueueMove(s, t);
            s'.hist == s.hist && p in s.hist.pos && s'.mem.tail in s.hist.pos &&
            s.hist.pos[p] < s.hist.pos[s'.mem.tail]
  {
    NeverNull(s, t);
    var pc := s.threads[t].pc;
    assert ThreadInv(s.mem, s.hist, t, pc);
    assert s.mem.nodes[pc.p].next == Succ(s.hist, s.hist.pos[pc.p]);
  }

  /** A failed exchange of `dequeue` means that `head` has moved past the node it had loaded. */
  lemma FailedClaimMeansHeadMoved(s: State, t: nat)
    requires Inv(s) && t < |s.threads| && s.threads[t].pc.DeqClaim? && s.mem.head != s.threads[t].pc.p
    ensures var p := s.threads[t].pc.p;
            p in s.hist.pos && s.mem.head in s.hist.pos && s.hist.pos[p] < s.hist.pos[s.mem.head]
  {
    assert ThreadInv(s.mem, s.hist, t, s.threads[t].pc);
  }

  /** The steps of the current call that no failed iteration accounts for. */
  function Spent(pc: Pc): nat {
    match pc
    case Idle => 0
    case EnqFirstLoad(_, _) => 1
    case EnqLoadTail(_, _) => 2
    case EnqLink(_, _, _) => 3
    case EnqReadNext(_, _, _) => 4
    case EnqHelp(_, _, _, _) => 5
    case EnqSwing(_, _, _) => 4
    case DeqFirstLoad => 1
    case DeqLoadHead => 2
    case DeqTest(_) => 3
    case DeqEmpty => 4
    case DeqReadNext(_) => 4
    case DeqClaim(_, _) => 5
    case DeqReadClaimed(_) => 6
    case DeqTake(_, _) => 7
    case DeqDropNode(_, _) => 8
  }

  /** A call takes at most nine steps and four for each failed iteration. */
  predicate StepsBounded(th: Thread) {
    if th.pc.Idle? then th.steps <= 9 * th.calls + 4 * (th.enqRetries + th.deqRetries)
    else th.calls > 0 && th.steps <= 9 * (th.calls - 1) + 4 * (th.enqRetries + th.deqRetries) + Spent(th.pc)
  }

  ghost predicate Bounded(s: State)
    requires Inv(s)
  {
    forall t :: 0 <= t < |s.threads| ==> RetriesBounded(s.mem, s.hist, s.threads[t]) && StepsBounded(s.threads[t])
  }

  lemma OwnStepBounded(s: State, a: Action)
    requires Inv(s) && Enabled(s, a) && Safe(s.mem, s.threads[a.t].pc) && Inv(Step(s, a))
    requires RetriesBounded(s.mem, s.hist, s.threads[a.t])
    requires |Step(s, a).threads| == |s.threads|
    requires Evolves(s.mem, s.hist, Step(s, a).mem, Step(s, a).hist, a.t)
    ensures var s' := Step(s, a); RetriesBounded(s'.mem, s'.hist, s'.threads[a.t])
  {
    assert ThreadInv(s.mem, s.hist, a.t, s.threads[a.t].pc);
  }

  lemma OwnStepCounted(s: State, a: Action)
    requires Enabled(s, a) && Safe(s.mem, s.threads[a.t].pc) && StepsBounded(s.threads[a.t])
    ensures |Step(s, a).threads| == |s.threads| && StepsBounded(Step(s, a).threads[a.t])
    ensures Step(s, a).threads == s.threads[a.t := Step(s, a).threads[a.t]]
    ensures Step(s, a).threads[a.t].steps == s.threads[a.t].steps + 1
    ensures Step(s, a).threads[a.t].calls == s.threads[a.t].calls + if a.Advance? then 0 else 1
  {}

  lemma OtherStaysBounded(s: State, s': State, t: nat, u: nat)
    requires Inv(s) && Inv(s') && Evolves(s.mem, s.hist, s'.mem, s'.hist, t) && u < |s.threads| && u != t
    requires RetriesBounded(s.mem, s.hist, s.threads[u])
    ensures RetriesBounded(s'.mem, s'.hist, s.threads[u])
  {
    assert ThreadInv(s.mem, s.hist, u, s.threads[u].pc);
  }

  lemma StepBounded(s: State, a: Action)
    requires Inv(s) && Bounded(s) && Enabled(s, a)
    ensures Safe(s.mem, s.threads[a.t].pc) && Inv(Step(s, a)) && Bounded(Step(s, a))
  {
    StepKeeps(s, a);
    var s' := Step(s, a);
    OwnStepBounded(s, a);
    OwnStepCounted(s, a);
    forall u | 0 <= u < |s.threads|
      ensures RetriesBounded(s'.mem, s'.hist, s'.threads[u]) && StepsBounded(s'.threads[u])
    {
      if u != a.t { OtherStaysBounded(s, s', a.t, u); }
    }
  }

  function Steps(threads: seq<Thread>): nat {
    if threads == [] then 0 else Steps(threads[..|threads| - 1]) + threads[|threads| - 1].steps
  }

  function Calls(threads: seq<Thread>): nat {
    if threads == [] then 0 else Calls(threads[..|threads| - 1]) + threads[|threads| - 1].calls
  }

  lemma {:induction false} TotalsUpdate(threads: seq<Thread>, t: nat, th: Thread)
    requires t < |threads|
    ensures Steps(threads[t := th]) == Steps(threads) - threads[t].steps + th.steps
    ensures Calls(threads[t := th]) == Calls(threads) - threads[t].calls + th.calls
  {
    var last := |threads| - 1;
    if t < last {
      TotalsUpdate(threads[..last], t, th);
      assert threads[t := th][..last] == threads[..last][t := th];
    } else {
      assert threads[t := th][..last] == threads[..last];
    }
  }

  lemma {:induction false} TotalsZero(threads: seq<Thread>)
    requires forall t :: 0 <= t < |threads| ==> threads[t].steps == threads[t].calls == 0
    ensures Steps(threads) == Calls(threads) == 0
  {
    if threads != [] { TotalsZero(threads[..|threads| - 1]); }
  }

  lemma {:induction false} TotalsBounded(threads: seq<Thread>, b: nat)
    requires forall t :: 0 <= t < |threads| ==> threads[t].steps <= 9 * threads[t].calls + b
    ensures Steps(threads) <= 9 * Calls(threads) + |threads| * b
  {
    if threads != [] {
      TotalsBounded(threads[..|threads| - 1], b);
      assert |threads| * b == (|threads| - 1) * b + b;
    }
  }

  /** The calls made in a run. */
  function CallCount(acts: seq<Action>): nat {
    if acts == [] then 0
    else CallCount(acts[..|acts| - 1]) + if acts[|acts| - 1].Advance? then 0 else 1
  }

  /** Nodes are only made by calls, and the chain does not repeat one. */
  lemma ChainFitsNodes(s: State)
    requires Inv(s)
    ensures |s.hist.chain| <= |s.mem.nodes|
  {
    Injection(s.hist.chain, |s.mem.nodes|);
  }

  lemma {:induction false} Injection(chain: seq<nat>, bound: nat)
    requires forall i :: 0 <= i < |chain| ==> chain[i] < bound
    requires forall i, j :: 0 <= i < j < |chain| ==> chain[i] != chain[j]
    ensures |chain| <= bound
    decreases bound
  {
    assert |chain| > 0 ==> chain[0] < bound;
    if bound > 0 {
      if i :| 0 <= i < |chain| && chain[i] == bound - 1 {
        Injection(chain[..i] + chain[i + 1..], bound - 1);
      } else {
        Injection(chain, bound - 1);
      }
    }
  }

  lemma {:induction false} RunTotals(n: nat, acts: seq<Action>)
    requires IsRun(n, acts)
    ensures var s := After(n, acts);
            && Inv(s) && Bounded(s) && |s.threads| == n
            && Steps(s.threads) == |acts| && Calls(s.threads) == CallCount(acts)
            && |s.mem.nodes| <= CallCount(acts) + 1
  {
    if acts == [] {
      InitInv(n);
      TotalsZero(Init(n).threads);
    } else {
      var last := |acts| - 1;
      var s, a := After(n, acts[..last]), acts[last];
      assert After(n, acts) == Step(s, a);
      hide IsRun, After, Inv, Safe, Bounded, StepsBounded;
      RunTotals(n, acts[..last]);
      StepBounded(s, a);
      OwnStepCounted(s, a);
      TotalsUpdate(s.threads, a.t, Step(s, a).threads[a.t]);
    }
  }

  /**
   One thread's failed iterations over a whole run are at most the links made, for `enqueue`, and the claims made,
   for `dequeue`.
  */
  lemma RetriesAreOthersSuccesses(n: nat, acts: seq<Action>, t: nat)
    requires IsRun(n, acts) && t < n
    ensures var s := After(n, acts);
            && t < |s.threads|
            && s.threads[t].enqRetries <= |s.hist.vals|
            && s.threads[t].deqRetries <= |s.hist.claimers| <= |s.hist.vals|
  {
    RunTotals(n, acts);
    var s := After(n, acts);
    assert RetriesBounded(s.mem, s.hist, s.threads[t]) && ThreadInv(s.mem, s.hist, t, s.threads[t].pc);
  }

  /**
   Lock-freedom: however `n` threads are scheduled, a run in which `c` calls are made has at most `(9 + 8 n) c` steps.
   So no schedule can keep threads stepping forever without calls being completed and new ones made.
  */
  lemma LockFree(n: nat, acts: seq<Action>)
    requires IsRun(n, acts)
    ensures |acts| <= 9 * CallCount(acts) + n * (8 * CallCount(acts))
  {
    RunTotals(n, acts);
    var s := After(n, acts);
    ChainFitsNodes(s);
    forall t | 0 <= t < n
      ensures s.threads[t].steps <= 9 * s.threads[t].calls + 8 * CallCount(acts)
    {
      RetriesAreOthersSuccesses(n, acts, t);
      assert StepsBounded(s.threads[t]);
    }
    TotalsBounded(s.threads, 8 * CallCount(acts));
  }
}
