/** What whole runs of the lock-free queue keep: the chain grows at one end, and every value is delivered once. */
module QueueHistory {
  import opened Wrappers
  import opened QueueMachine
  import opened QueueInvariant
  import opened Linearizability
  import opened Totals

  /** From `s` on: links stay, the chain only gets longer, and `head` and `tail` only move forward along it. */
  ghost predicate Later(s: State, s': State)
    requires Inv(s) && Inv(s')
  {
    && s.hist.chain <= s'.hist.chain && s.hist.vals <= s'.hist.vals && s.hist.claimers <= s'.hist.claimers
    && |s.mem.nodes| <= |s'.mem.nodes|
    && (forall a :: 0 <= a < |s.mem.nodes| && s.mem.nodes[a].next.Some? ==>
          s'.mem.nodes[a].next == s.mem.nodes[a].next)
    && (forall a :: a in s.hist.pos ==> a in s'.hist.pos && s'.hist.pos[a] == s.hist.pos[a])
    && s.hist.pos[s.mem.tail] <= s'.hist.pos[s'.mem.tail]
    && s.hist.pos[s.mem.head] <= s'.hist.pos[s'.mem.head]
  }

  lemma LaterTrans(s: State, s': State, s'': State)
    requires Inv(s) && Inv(s') && Inv(s'') && Later(s, s') && Later(s', s'')
    ensures Later(s, s'')
  {}

  /** A `next` pointer, once set, is set for good; so every load of `p.next` in one `dequeue` gives the same node. */
  lemma {:induction false} OnlyForward(n: nat, acts: seq<Action>, k: nat)
    requires IsRun(n, acts) && k <= |acts|
    ensures IsRun(n, acts[..k]) && Inv(After(n, acts[..k])) && Inv(After(n, acts))
    ensures Later(After(n, acts[..k]), After(n, acts))
  {
    Reachable(n, acts);
    if k == |acts| {
      assert acts[..k] == acts;
    } else {
      var last := |acts| - 1;
      assert After(n, acts) == Step(After(n, acts[..last]), acts[last]);
      hide IsRun, After, Inv, Step;
      OnlyForward(n, acts[..last], k);
      assert acts[..last][..k] == acts[..k];
      StepKeeps(After(n, acts[..last]), acts[last]);
      LaterTrans(After(n, acts[..k]), After(n, acts[..last]), After(n, acts));
    }
  }

  /** `tail` is the last node or the one before it, and `head` is at most one node past `tail`. */
  lemma EndsAreClose(s: State)
    requires Inv(s)
    ensures s.mem.head in s.hist.pos && s.mem.tail in s.hist.pos
    ensures s.hist.pos[s.mem.tail] + 1 == |s.hist.chain| || s.hist.pos[s.mem.tail] + 2 == |s.hist.chain|
    ensures s.hist.pos[s.mem.head] <= s.hist.pos[s.mem.tail] + 1
  {}

  /**
   The three loads of `p.next` in a successful `dequeue` agree: the first finds a node, and the other two find the
   node that is there now, which is the one linked after `p` and never changes.
  */
  lemma LoadsAgree(s: State, t: nat)
    requires Inv(s) && t < |s.threads|
    ensures var pc, h := s.threads[t].pc, s.hist;
            pc.DeqReadNext? || pc.DeqClaim? || pc.DeqReadClaimed? || pc.DeqTake? ==>
              && pc.p < |s.mem.nodes| && pc.p in h.pos
              && Succ(h, h.pos[pc.p]).Some? && s.mem.nodes[pc.p].next == Succ(h, h.pos[pc.p])
              && (pc.DeqClaim? ==> pc.n == Succ(h, h.pos[pc.p]))
              && (pc.DeqTake? ==> pc.m == Succ(h, h.pos[pc.p]))
  {
    assert ThreadInv(s.mem, s.hist, t, s.threads[t].pc);
  }

  /** `path` starts at `a`, follows `next`, and ends at null. */
  ghost predicate PathFrom(nodes: seq<Node>, a: Addr, path: seq<Addr>) {
    && |path| > 0 && path[0] == a
    && (forall i :: 0 <= i < |path| ==> path[i] < |nodes|)
    && (forall i {:trigger nodes[path[i]]} :: 0 <= i < |path| ==>
          nodes[path[i]].next == if i + 1 < |path| then Some(path[i + 1]) else None)
  }

  lemma {:induction false} PathsAreUnique(nodes: seq<Node>, a: Addr, p: seq<Addr>, q: seq<Addr>)
    requires PathFrom(nodes, a, p) && PathFrom(nodes, a, q)
    ensures p == q
    decreases |p|
  {
    assert nodes[p[0]].next == nodes[q[0]].next;
    if |p| > 1 {
      forall i | 0 <= i < |p| - 1
        ensures nodes[p[1..][i]].next == if i + 1 < |p| - 1 then Some(p[1..][i + 1]) else None
      {
        assert nodes[p[i + 1]].next.Some? ==> i + 2 < |p|;
      }
      forall i | 0 <= i < |q| - 1
        ensures nodes[q[1..][i]].next == if i + 1 < |q| - 1 then Some(q[1..][i + 1]) else None
      {
        assert nodes[q[i + 1]].next.Some? ==> i + 2 < |q|;
      }
      PathsAreUnique(nodes, p[1], p[1..], q[1..]);
      assert p == [a] + p[1..] && q == [a] + q[1..];
    }
  }

  /** The abstract queue is what shared memory holds: the values in the nodes strictly after `head`. */
  lemma QueueIsInMemory(s: State)
    requires Inv(s)
    ensures var path := s.hist.chain[|s.hist.claimers|..];
            && PathFrom(s.mem.nodes, s.mem.head, path)
            && |path| == |QueueOf(s.hist)| + 1
            && forall i :: 1 <= i < |path| ==> s.mem.nodes[path[i]].value == Some(QueueOf(s.hist)[i - 1])
  {
    var h, c := s.hist, |s.hist.claimers|;
    var path := h.chain[c..];
    forall i | 0 <= i < |path|
      ensures path[i] < |s.mem.nodes|
      ensures s.mem.nodes[path[i]].next == if i + 1 < |path| then Some(path[i + 1]) else None
      ensures i > 0 ==> s.mem.nodes[path[i]].value == Some(QueueOf(s.hist)[i - 1])
    {
      assert path[i] == h.chain[c + i];
      assert s.mem.nodes[h.chain[c + i]].next == Succ(h, c + i);
      assert Holds(s.mem.nodes, h, s.threads, c + i);
    }
  }

  /** What thread `pc` has claimed and not yet returned. */
  function Carried(h: History, pc: Pc): multiset<Value> {
    if pc.DeqReadClaimed? || pc.DeqTake? || pc.DeqDropNode? then
      match ValueAfter(h, pc.p) case Some(v) => multiset{v} case None => multiset{}
    else multiset{}
  }

  function Carries(h: History, threads: seq<Thread>): seq<multiset<Value>> {
    seq(|threads|, i requires 0 <= i < |threads| => Carried(h, threads[i].pc))
  }

  function Outstanding(s: State): multiset<Value> {
    Union(Carries(s.hist, s.threads))
  }

  /** Every value linked is in the queue, carried by the thread that claimed it, or returned; none is in two places. */
  ghost predicate Conserved(s: State)
    requires Inv(s)
  {
    multiset(s.hist.vals) == multiset(s.returned) + Outstanding(s) + multiset(QueueOf(s.hist))
  }

  /** A step moves at most one value: from its link to the queue, from the queue to a thread, from there out. */
  lemma StepMoves(s: State, s': State, t: nat)
    requires Inv(s) && Inv(s') && Evolves(s.mem, s.hist, s'.mem, s'.hist, t)
    requires t < |s.threads| == |s'.threads| && s'.threads == s.threads[t := s'.threads[t]]
    ensures Outstanding(s') + Carried(s.hist, s.threads[t].pc) == Outstanding(s) + Carried(s'.hist, s'.threads[t].pc)
  {
    forall u | 0 <= u < |s.threads| && u != t
      ensures Carried(s'.hist, s'.threads[u].pc) == Carried(s.hist, s.threads[u].pc)
    {
      assert ThreadInv(s.mem, s.hist, u, s.threads[u].pc);
    }
    hide Inv, Evolves, Carried;
    var m := Carried(s'.hist, s'.threads[t].pc);
    UnionUpdate(Carries(s.hist, s.threads), t, m);
    assert Carries(s'.hist, s'.threads) == Carries(s.hist, s.threads)[t := m];
  }

  predicate InOrder(s: State) {
    |s.hist.claimers| <= |s.hist.vals|
  }

  /** The step links `xs`, claims `ys` from the front of the queue, and returns `zs`. */
  ghost predicate Balanced(s: State, s': State, t: nat, xs: seq<Value>, ys: seq<Value>, zs: seq<Value>)
    requires InOrder(s) && InOrder(s') && t < |s.threads| == |s'.threads|
  {
    && s'.hist.vals == s.hist.vals + xs
    && QueueOf(s.hist) + xs == ys + QueueOf(s'.hist)
    && s'.returned == s.returned + zs
    && Carried(s.hist, s.threads[t].pc) + multiset(ys) == Carried(s'.hist, s'.threads[t].pc) + multiset(zs)
  }

  lemma ClaimBalances(s: State, t: nat, p: Addr)
    requires Inv(s) && t < |s.threads| && s.threads[t].pc.DeqClaim? && s.threads[t].pc.p == p && s.mem.head == p
    requires Safe(s.mem, s.threads[t].pc) && InOrder(DequeueMove(s, t))
    ensures Balanced(s, DequeueMove(s, t), t, [], [s.hist.vals[|s.hist.claimers|]], [])
  {
    var s', c := DequeueMove(s, t), |s.hist.claimers|;
    assert s.hist.vals[c..] == [s.hist.vals[c]] + s'.hist.vals[c + 1..];
    assert Carried(s'.hist, s'.threads[t].pc) == multiset{s.hist.vals[c]};
  }

  lemma ReturnBalances(s: State, t: nat, p: Addr, res: Option<Value>)
    requires Inv(s) && t < |s.threads| && s.threads[t].pc == DeqDropNode(p, res) && Safe(s.mem, s.threads[t].pc)
    requires InOrder(DequeueMove(s, t))
    ensures res.Some? && Balanced(s, DequeueMove(s, t), t, [], [], [res.value])
  {
    assert ThreadInv(s.mem, s.hist, t, s.threads[t].pc);
    assert Carried(s.hist, s.threads[t].pc) == multiset{res.value};
  }

  /** The steps that neither link, claim nor return. */
  lemma QuietBalances(s: State, s': State, t: nat)
    requires InOrder(s) && InOrder(s') && t < |s.threads| == |s'.threads|
    requires s'.hist.vals == s.hist.vals && s'.hist.claimers == s.hist.claimers && s'.returned == s.returned
    requires Carried(s.hist, s.threads[t].pc) == Carried(s'.hist, s'.threads[t].pc)
    ensures Balanced(s, s', t, [], [], [])
  {}

  lemma EnqueueBalances(s: State, t: nat) returns (xs: seq<Value>)
    requires InOrder(s) && t < |s.threads| && s.threads[t].pc.InEnqueue() && Safe(s.mem, s.threads[t].pc)
    requires InOrder(EnqueueMove(s, t))
    ensures Balanced(s, EnqueueMove(s, t), t, xs, [], [])
  {
    hide EnqueueAccess;
    var s', pc, c := EnqueueMove(s, t), s.threads[t].pc, |s.hist.claimers|;
    if pc.EnqLink? && s.mem.nodes[pc.p].next.None? {
      xs := [pc.v];
      assert s'.hist.vals[c..] == s.hist.vals[c..] + xs;
    } else {
      xs := [];
      QuietBalances(s, s', t);
    }
  }

  lemma DequeueBalances(s: State, t: nat) returns (ys: seq<Value>, zs: seq<Value>)
    requires Inv(s) && t < |s.threads| && s.threads[t].pc.InDequeue() && Safe(s.mem, s.threads[t].pc)
    requires InOrder(DequeueMove(s, t))
    ensures Balanced(s, DequeueMove(s, t), t, [], ys, zs)
  {
    hide Inv, Safe;
    ys, zs := [], [];
    var pc := s.threads[t].pc;
    if pc.DeqClaim? && s.mem.head == pc.p {
      ys := [s.hist.vals[|s.hist.claimers|]];
      ClaimBalances(s, t, pc.p);
    } else if pc.DeqDropNode? {
      ReturnBalances(s, t, pc.p, pc.res);
      zs := [pc.res.value];
    } else {
      QuietBalances(s, DequeueMove(s, t), t);
    }
  }

  lemma StepBalances(s: State, a: Action) returns (xs: seq<Value>, ys: seq<Value>, zs: seq<Value>)
    requires Inv(s) && Enabled(s, a) && Safe(s.mem, s.threads[a.t].pc) && InOrder(Step(s, a))
    requires |Step(s, a).threads| == |s.threads|
    ensures Balanced(s, Step(s, a), a.t, xs, ys, zs)
  {
    xs, ys, zs := [], [], [];
    if !a.Advance? {
      QuietBalances(s, Step(s, a), a.t);
    } else if s.threads[a.t].pc.InEnqueue() {
      xs := EnqueueBalances(s, a.t);
    } else {
      ys, zs := DequeueBalances(s, a.t);
    }
  }

  lemma Balance(r: multiset<Value>, o: multiset<Value>, o': multiset<Value>, c: multiset<Value>, c': multiset<Value>,
                q: multiset<Value>, q': multiset<Value>, x: multiset<Value>, y: multiset<Value>, z: multiset<Value>)
    requires o' + c == o + c' && q + x == y + q' && c + y == c' + z
    ensures r + o + q + x == (r + z) + o' + q'
  {
    forall v
      ensures (r + o + q + x)[v] == ((r + z) + o' + q')[v]
    {
      assert (o' + c)[v] == (o + c')[v];
      assert (q + x)[v] == (y + q')[v];
      assert (c + y)[v] == (c' + z)[v];
    }
  }

  lemma StepConserves(s: State, a: Action)
    requires Inv(s) && Conserved(s) && Enabled(s, a)
    ensures Safe(s.mem, s.threads[a.t].pc) && Inv(Step(s, a)) && Conserved(Step(s, a))
  {
    StepKeeps(s, a);
    var s', t := Step(s, a), a.t;
    var xs, ys, zs := StepBalances(s, a);
    StepMoves(s, s', t);
    AllConserved(s, s', t, xs, ys, zs);
  }

  lemma AllConserved(s: State, s': State, t: nat, xs: seq<Value>, ys: seq<Value>, zs: seq<Value>)
    requires Inv(s) && Inv(s') && t < |s.threads| == |s'.threads| && Balanced(s, s', t, xs, ys, zs) && Conserved(s)
    requires Outstanding(s') + Carried(s.hist, s.threads[t].pc) == Outstanding(s) + Carried(s'.hist, s'.threads[t].pc)
    ensures Conserved(s')
  {
    var q, q' := QueueOf(s.hist), QueueOf(s'.hist);
    assert multiset(q) + multiset(xs) == multiset(q + xs) == multiset(ys + q') == multiset(ys) + multiset(q');
    Balance(multiset(s.returned), Outstanding(s), Outstanding(s'), Carried(s.hist, s.threads[t].pc),
            Carried(s'.hist, s'.threads[t].pc), multiset(q), multiset(q'), multiset(xs), multiset(ys), multiset(zs));
  }

  /**
   Exactly once: in every reachable state the values linked are the values returned, those claimed and on their way
   out, and those in the queue.
  */
  lemma {:induction false} DeliveredOnce(n: nat, acts: seq<Action>)
    requires IsRun(n, acts)
    ensures Inv(After(n, acts)) && Conserved(After(n, acts))
  {
    if acts == [] {
      InitInv(n);
      NothingOutstanding(Init(n));
    } else {
      var last := |acts| - 1;
      DeliveredOnce(n, acts[..last]);
      StepConserves(After(n, acts[..last]), acts[last]);
    }
  }

  ghost predicate Quiescent(s: State) {
    forall t :: 0 <= t < |s.threads| ==> s.threads[t].pc.Idle?
  }

  lemma NothingOutstanding(s: State)
    requires Quiescent(s)
    ensures Outstanding(s) == multiset{}
  {
    var ms := Carries(s.hist, s.threads);
    assert forall i :: 0 <= i < |ms| ==> ms[i] == multiset{};
    UnionEmpty(ms);
  }
}
