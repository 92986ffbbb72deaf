/** What every step of the lock-free queue keeps. */
module QueueInvariant {
  import opened Wrappers
  import opened QueueMachine

  /** The element of the chain after position `k`. */
  function Succ(h: History, k: nat): Option<Addr> {
    if k + 1 < |h.chain| then Some(h.chain[k + 1]) else None
  }

  /** The linked nodes form one chain from the first dummy; `pos` is its inverse, so no node occurs twice. */
  ghost predicate ChainInv(nodes: seq<Node>, h: History) {
    && 1 <= |h.chain| == |h.vals| + 1
    && |h.owner| == |nodes|
    && (forall k :: 0 <= k < |h.chain| ==> h.chain[k] in h.pos && h.pos[h.chain[k]] == k)
    && (forall a :: a in h.pos ==> a < |nodes| && h.pos[a] < |h.chain| && h.chain[h.pos[a]] == a)
    && (forall a {:trigger nodes[a]} :: a in h.pos ==> nodes[a].next == Succ(h, h.pos[a]))
  }

  /** `head` is as far along as there were claims, `tail` is the last node or the one before it. */
  ghost predicate EndsInv(m: Memory, h: History) {
    && |h.claimers| < |h.chain|
    && m.head == h.chain[|h.claimers|]
    && m.tail in h.pos
    && |h.chain| <= h.pos[m.tail] + 2
  }

  /** What the node at position `k` holds: nothing in the first, the linked value until its claimer takes it. */
  ghost predicate Holds(nodes: seq<Node>, h: History, threads: seq<Thread>, k: nat)
    requires k < |h.chain| == |h.vals| + 1 && h.chain[k] < |nodes|
    requires forall i :: 0 <= i < |h.claimers| ==> h.claimers[i] < |threads|
  {
    nodes[h.chain[k]].value ==
      if k == 0 then None
      else if k <= |h.claimers| && !threads[h.claimers[k - 1]].pc.Holds(h.chain[k - 1]) then None
      else Some(h.vals[k - 1])
  }

  ghost predicate ValuesInv(nodes: seq<Node>, h: History, threads: seq<Thread>)
    requires ChainInv(nodes, h)
  {
    && (forall i :: 0 <= i < |h.claimers| ==> h.claimers[i] < |threads|)
    && (forall k :: 0 <= k < |h.chain| ==> Holds(nodes, h, threads, k))
  }

  ghost predicate Private(nodes: seq<Node>, h: History, t: nat, v: Value, q: Addr) {
    q < |nodes| == |h.owner| && q !in h.pos && h.owner[q] == t && nodes[q] == Node(Some(v), None)
  }

  ghost predicate TailWas(m: Memory, h: History, p: Addr)
    requires ChainInv(m.nodes, h) && EndsInv(m, h)
  {
    p in h.pos && h.pos[p] <= h.pos[m.tail]
  }

  ghost predicate HeadWas(m: Memory, h: History, p: Addr)
    requires ChainInv(m.nodes, h) && EndsInv(m, h)
  {
    p in h.pos && h.pos[p] <= |h.claimers|
  }

  /** `t` made the claim that moved `head` past `p`. */
  ghost predicate Claimed(m: Memory, h: History, t: nat, p: Addr)
    requires ChainInv(m.nodes, h) && EndsInv(m, h)
  {
    p in h.pos && h.pos[p] < |h.claimers| && h.claimers[h.pos[p]] == t && m.nodes[p].next.Some?
  }

  ghost predicate ThreadInv(m: Memory, h: History, t: nat, pc: Pc)
    requires ChainInv(m.nodes, h) && EndsInv(m, h)
  {
    match pc
    case Idle => true
    case EnqFirstLoad(v, q) => Private(m.nodes, h, t, v, q)
    case EnqLoadTail(v, q) => Private(m.nodes, h, t, v, q)
    case EnqLink(v, q, p) => Private(m.nodes, h, t, v, q) && TailWas(m, h, p)
    case EnqReadNext(v, q, p) => Private(m.nodes, h, t, v, q) && TailWas(m, h, p) && m.nodes[p].next.Some?
    case EnqHelp(v, q, p, n) =>
      Private(m.nodes, h, t, v, q) && TailWas(m, h, p) && m.nodes[p].next == n && n.Some?
    case EnqSwing(v, q, p) =>
      TailWas(m, h, p) && m.nodes[p].next == Some(q) && h.pos[p] < |h.vals| && h.vals[h.pos[p]] == v
    case DeqFirstLoad => true
    case DeqLoadHead => true
    case DeqTest(p) => HeadWas(m, h, p)
    case DeqEmpty => true
    case DeqReadNext(p) => HeadWas(m, h, p) && m.nodes[p].next.Some?
    case DeqClaim(p, n) => HeadWas(m, h, p) && m.nodes[p].next == n && n.Some?
    case DeqReadClaimed(p) => Claimed(m, h, t, p)
    case DeqTake(p, a) => Claimed(m, h, t, p) && m.nodes[p].next == a
    case DeqDropNode(p, res) => Claimed(m, h, t, p) && res == Some(h.vals[h.pos[p]])
  }

  ghost predicate MemInv(m: Memory, h: History) {
    ChainInv(m.nodes, h) && EndsInv(m, h)
  }

  ghost predicate Inv(s: State) {
    && MemInv(s.mem, s.hist)
    && ValuesInv(s.mem.nodes, s.hist, s.threads)
    && forall t :: 0 <= t < |s.threads| ==> ThreadInv(s.mem, s.hist, t, s.threads[t].pc)
  }

  /**
   What a step of `t` may do to shared memory: append to the chain, move `head` and `tail` forward,
   set a null `next`, and nothing else that another thread relies on.
   */
  ghost predicate Evolves(m: Memory, h: History, m': Memory, h': History, t: nat)
    requires MemInv(m, h) && MemInv(m', h')
  {
    && |m.nodes| <= |m'.nodes| && h.owner <= h'.owner
    && h.chain <= h'.chain && h.vals <= h'.vals && h.claimers <= h'.claimers
    && (forall a :: 0 <= a < |m.nodes| && m.nodes[a].next.Some? ==> m'.nodes[a].next == m.nodes[a].next)
    && (forall v, q, u :: Private(m.nodes, h, u, v, q) && u != t ==> Private(m'.nodes, h', u, v, q))
    && (forall a :: a in h.pos ==> a in h'.pos && h'.pos[a] == h.pos[a])
    && h.pos[m.tail] <= h'.pos[m'.tail]
  }

  lemma OtherKeeps(m: Memory, h: History, m': Memory, h': History, t: nat, u: nat, pc: Pc)
    requires MemInv(m, h) && MemInv(m', h') && Evolves(m, h, m', h', t)
    requires u != t && ThreadInv(m, h, u, pc)
    ensures ThreadInv(m', h', u, pc)
  {}

  lemma Combine(s: State, s': State, t: nat)
    requires Inv(s) && t < |s.threads| && MemInv(s'.mem, s'.hist) && Evolves(s.mem, s.hist, s'.mem, s'.hist, t)
    requires |s'.threads| == |s.threads| && s'.threads == s.threads[t := s'.threads[t]]
    requires ValuesInv(s'.mem.nodes, s'.hist, s'.threads)
    requires ThreadInv(s'.mem, s'.hist, t, s'.threads[t].pc)
    ensures Inv(s')
  {
    forall u | 0 <= u < |s.threads|
      ensures ThreadInv(s'.mem, s'.hist, u, s'.threads[u].pc)
    {
      if u != t { OtherKeeps(s.mem, s.hist, s'.mem, s'.hist, t, u, s.threads[u].pc); }
    }
  }

  lemma InitInv(n: nat)
    ensures Inv(Init(n))
  {}

  lemma LocalStep(s: State, s': State, t: nat, th: Thread)
    requires Inv(s) && t < |s.threads| && ThreadInv(s.mem, s.hist, t, th.pc)
    requires s'.mem == s.mem && s'.hist == s.hist && s'.threads == s.threads[t := th]
    requires forall a :: th.pc.Holds(a) <==> s.threads[t].pc.Holds(a)
    ensures Inv(s') && Evolves(s.mem, s.hist, s'.mem, s'.hist, t)
  {
    forall k | 0 <= k < |s.hist.chain|
      ensures Holds(s'.mem.nodes, s'.hist, s'.threads, k)
    {
      assert Holds(s.mem.nodes, s.hist, s.threads, k);
    }
    Combine(s, s', t);
  }

  lemma AllocateStep(s: State, t: nat, v: Value)
    requires Inv(s) && Enabled(s, CallEnqueue(t, v))
    ensures var s' := Step(s, CallEnqueue(t, v));
            Inv(s') && Evolves(s.mem, s.hist, s'.mem, s'.hist, t)
  {
    var s' := Step(s, CallEnqueue(t, v));
    forall k | 0 <= k < |s.hist.chain|
      ensures Holds(s'.mem.nodes, s'.hist, s'.threads, k)
    {
      assert Holds(s.mem.nodes, s.hist, s.threads, k);
    }
    assert ChainInv(s'.mem.nodes, s'.hist) by {
      forall a | a in s.hist.pos
        ensures s'.mem.nodes[a].next == Succ(s'.hist, s.hist.pos[a])
      {
        assert s'.mem.nodes[a] == s.mem.nodes[a];
      }
    }
    Combine(s, s', t);
  }

  /** A linked node whose `next` is null is the last of the chain. */
  lemma NullNextIsLast(m: Memory, h: History, p: Addr)
    requires MemInv(m, h) && p in h.pos
    ensures m.nodes[p].next.None? <==> h.pos[p] + 1 == |h.chain|
  {}

  lemma LinkChain(m: Memory, h: History, t: nat, v: Value, q: Addr, p: Addr)
    requires MemInv(m, h) && Private(m.nodes, h, t, v, q) && p in h.pos && m.nodes[p].next.None?
    ensures ChainInv(Link(m, p, q).nodes, Linked(h, q, v)) && h.pos[p] + 1 == |h.chain|
  {
    var nodes', h' := Link(m, p, q).nodes, Linked(h, q, v);
    assert p != q && nodes'[q] == m.nodes[q];
    assert nodes'[p].next == Some(q);
    forall a | a in h'.pos
      ensures nodes'[a].next == Succ(h', h'.pos[a])
    {
      if a != q && a != p {
        assert h.chain[h.pos[a]] == a;
        assert nodes'[a] == m.nodes[a];
      }
    }
  }

  lemma LinkMemory(m: Memory, h: History, t: nat, v: Value, q: Addr, p: Addr)
    requires MemInv(m, h) && Private(m.nodes, h, t, v, q) && TailWas(m, h, p) && m.nodes[p].next.None?
    ensures MemInv(Link(m, p, q), Linked(h, q, v)) && Evolves(m, h, Link(m, p, q), Linked(h, q, v), t)
  {
    LinkChain(m, h, t, v, q, p);
  }

  lemma LinkStep(s: State, s': State, t: nat, th: Thread, v: Value, q: Addr, p: Addr)
    requires Inv(s) && t < |s.threads| && s.threads[t].pc == EnqLink(v, q, p) && s.mem.nodes[p].next.None?
    requires s'.mem == Link(s.mem, p, q) && s'.hist == Linked(s.hist, q, v) && s'.threads == s.threads[t := th]
    requires th.pc == EnqSwing(v, q, p)
    ensures Inv(s') && Evolves(s.mem, s.hist, s'.mem, s'.hist, t)
  {
    LinkMemory(s.mem, s.hist, t, v, q, p);
    forall k | 0 <= k < |s'.hist.chain|
      ensures Holds(s'.mem.nodes, s'.hist, s'.threads, k)
    {
      if k < |s.hist.chain| { assert Holds(s.mem.nodes, s.hist, s.threads, k); }
    }
    Combine(s, s', t);
  }

  /** Moving `tail` from `p` to the node after it, if it is still at `p`. */
  lemma TailStep(s: State, s': State, t: nat, th: Thread, p: Addr, n: Addr)
    requires Inv(s) && t < |s.threads| && TailWas(s.mem, s.hist, p) && s.mem.nodes[p].next == Some(n)
    requires s'.mem == s.mem.(tail := if s.mem.tail == p then n else s.mem.tail) && s'.hist == s.hist
    requires s'.threads == s.threads[t := th] && ThreadInv(s.mem, s.hist, t, th.pc)
    requires forall a :: !th.pc.Holds(a) && !s.threads[t].pc.Holds(a)
    requires th.pc.Idle? || th.pc.EnqLoadTail?
    ensures Inv(s') && Evolves(s.mem, s.hist, s'.mem, s'.hist, t)
    ensures s.hist.pos[p] < s.hist.pos[s'.mem.tail]
  {
    assert Succ(s.hist, s.hist.pos[p]) == Some(n);
    forall k | 0 <= k < |s.hist.chain|
      ensures Holds(s'.mem.nodes, s'.hist, s'.threads, k)
    {
      assert Holds(s.mem.nodes, s.hist, s.threads, k);
    }
    Combine(s, s', t);
  }

  lemma ClaimStep(s: State, s': State, t: nat, th: Thread, p: Addr, n: Addr)
    requires Inv(s) && t < |s.threads| && s.threads[t].pc == DeqClaim(p, Some(n)) && s.mem.head == p
    requires s'.mem == s.mem.(head := n) && s'.hist == s.hist.(claimers := s.hist.claimers + [t])
    requires s'.threads == s.threads[t := th] && th.pc == DeqReadClaimed(p)
    ensures Inv(s') && Evolves(s.mem, s.hist, s'.mem, s'.hist, t)
  {
    assert Succ(s.hist, s.hist.pos[p]) == Some(n);
    forall k | 0 <= k < |s.hist.chain|
      ensures Holds(s'.mem.nodes, s'.hist, s'.threads, k)
    {
      assert Holds(s.mem.nodes, s.hist, s.threads, k);
    }
    Combine(s, s', t);
  }

  lemma TakeMemory(m: Memory, h: History, t: nat, a: Addr)
    requires MemInv(m, h) && a in h.pos
    ensures MemInv(Take(m, a), h) && Evolves(m, h, Take(m, a), h, t)
  {
    var m' := Take(m, a);
    forall x | x in h.pos
      ensures m'.nodes[x].next == Succ(h, h.pos[x])
    {
      assert m.nodes[x].next == Succ(h, h.pos[x]);
    }
  }

  /** The value taken at line 111 is there, and is the one that was linked after `p`. */
  lemma TakeStep(s: State, s': State, t: nat, th: Thread, p: Addr, a: Addr)
    requires Inv(s) && t < |s.threads| && s.threads[t].pc == DeqTake(p, Some(a)) && a < |s.mem.nodes|
    requires s'.mem == Take(s.mem, a) && s'.hist == s.hist
    requires s'.threads == s.threads[t := th] && th.pc == DeqDropNode(p, s.mem.nodes[a].value)
    ensures Inv(s') && Evolves(s.mem, s.hist, s'.mem, s'.hist, t)
    ensures p in s.hist.pos && s.hist.pos[p] < |s.hist.vals|
    ensures s.mem.nodes[a].value == Some(s.hist.vals[s.hist.pos[p]])
  {
    assert Succ(s.hist, s.hist.pos[p]) == Some(a);
    TakeMemory(s.mem, s.hist, t, a);
    assert Holds(s.mem.nodes, s.hist, s.threads, s.hist.pos[a]);
    forall k | 0 <= k < |s.hist.chain|
      ensures Holds(s'.mem.nodes, s'.hist, s'.threads, k)
    {
      assert Holds(s.mem.nodes, s.hist, s.threads, k);
    }
    Combine(s, s', t);
  }

  /** No thread ever follows, or stores in `head` or `tail`, a null or unallocated pointer. */
  lemma NeverNull(s: State, t: nat)
    requires Inv(s) && t < |s.threads|
    ensures Safe(s.mem, s.threads[t].pc)
  {
    var pc := s.threads[t].pc;
    assert ThreadInv(s.mem, s.hist, t, pc);
    if (pc.EnqHelp? || pc.DeqClaim? || pc.DeqTake?) {
      assert s.mem.nodes[pc.p].next == Succ(s.hist, s.hist.pos[pc.p]);
    }
  }

  lemma EnqueueMoveKeeps(s: State, t: nat)
    requires Inv(s) && Enabled(s, Advance(t)) && s.threads[t].pc.InEnqueue()
    ensures Safe(s.mem, s.threads[t].pc)
    ensures var s' := EnqueueMove(s, t); Inv(s') && Evolves(s.mem, s.hist, s'.mem, s'.hist, t)
  {
    NeverNull(s, t);
    var s' := EnqueueMove(s, t);
    var pc := s.threads[t].pc;
    assert ThreadInv(s.mem, s.hist, t, pc);
    if pc.EnqLink? && s.mem.nodes[pc.p].next.None? {
      LinkStep(s, s', t, s'.threads[t], pc.v, pc.q, pc.p);
    } else if pc.EnqHelp? {
      TailStep(s, s', t, s'.threads[t], pc.p, pc.n.value);
    } else if pc.EnqSwing? {
      TailStep(s, s', t, s'.threads[t], pc.p, pc.q);
    } else {
      LocalStep(s, s', t, s'.threads[t]);
    }
  }

  lemma DequeueMoveKeeps(s: State, t: nat)
    requires Inv(s) && Enabled(s, Advance(t)) && s.threads[t].pc.InDequeue()
    ensures Safe(s.mem, s.threads[t].pc)
    ensures var s' := DequeueMove(s, t); Inv(s') && Evolves(s.mem, s.hist, s'.mem, s'.hist, t)
  {
    NeverNull(s, t);
    var s' := DequeueMove(s, t);
    var pc := s.threads[t].pc;
    assert ThreadInv(s.mem, s.hist, t, pc);
    if pc.DeqClaim? && s.mem.head == pc.p {
      ClaimStep(s, s', t, s'.threads[t], pc.p, pc.n.value);
    } else if pc.DeqTake? {
      TakeStep(s, s', t, s'.threads[t], pc.p, pc.m.value);
    } else {
      LocalStep(s, s', t, s'.threads[t]);
    }
  }

  /** Every step is safe and keeps the invariant, and changes shared memory only as `Evolves` allows. */
  lemma StepKeeps(s: State, a: Action)
    requires Inv(s) && Enabled(s, a)
    ensures Safe(s.mem, s.threads[a.t].pc)
    ensures var s' := Step(s, a); Inv(s') && Evolves(s.mem, s.hist, s'.mem, s'.hist, a.t)
    ensures |Step(s, a).threads| == |s.threads|
  {
    match a
    case CallEnqueue(t, v) => AllocateStep(s, t, v);
    case CallDequeue(t) =>
      var s' := Step(s, a);
      LocalStep(s, s', t, s'.threads[t]);
    case Advance(t) =>
      if s.threads[t].pc.InEnqueue() { EnqueueMoveKeeps(s, t); } else { DequeueMoveKeeps(s, t); }
  }

  /** The invariant holds in every reachable state. */
  lemma {:induction false} Reachable(n: nat, acts: seq<Action>)
    requires IsRun(n, acts)
    ensures Inv(After(n, acts)) && |After(n, acts).threads| == n
  {
    if acts == [] {
      InitInv(n);
    } else {
      var last := |acts| - 1;
      Reachable(n, acts[..last]);
      StepKeeps(After(n, acts[..last]), acts[last]);
    }
  }

  /** Safety is never what stops a run: whatever a thread does next follows real pointers. */
  lemma RunsExtend(n: nat, acts: seq<Action>, a: Action)
    requires IsRun(n, acts) && Enabled(After(n, acts), a)
    ensures IsRun(n, acts + [a])
    ensures After(n, acts + [a]) == Step(After(n, acts), a)
  {
    Reachable(n, acts);
    StepKeeps(After(n, acts), a);
    assert (acts + [a])[..|acts|] == acts;
  }
}
