/** What `drop_in_place` meets: line 112 drops the node that `head` left, which another consumer may not have emptied. */
module QueueDrops {
  import opened Wrappers
  import opened QueueMachine
  import opened QueueInvariant
  import opened QueueHistory

  /** Thread `u` has claimed node `a` and not yet taken its value. */
  ghost predicate HasYetToTake(s: State, u: nat, a: Addr)
    requires u < |s.threads|
  {
    var pc := s.threads[u].pc;
    (pc.DeqReadClaimed? || pc.DeqTake?) && pc.p < |s.mem.nodes| && s.mem.nodes[pc.p].next == Some(a)
  }

  /** Line 112 drops a node that still holds a value exactly when its claimer has yet to reach the take of line 111. */
  lemma DropsValueIff(s: State, t: nat, p: Addr, res: Option<Value>)
    requires Inv(s) && t < |s.threads| && s.threads[t].pc == DeqDropNode(p, res)
    ensures p < |s.mem.nodes|
    ensures s.mem.nodes[p].value.Some? <==> exists u :: 0 <= u < |s.threads| && HasYetToTake(s, u, p)
  {
    var h := s.hist;
    assert ThreadInv(s.mem, h, t, s.threads[t].pc);
    var k := h.pos[p];
    assert Holds(s.mem.nodes, h, s.threads, k);
    if k > 0 {
      assert s.mem.nodes[h.chain[k - 1]].next == Succ(h, k - 1);
    }
    if s.mem.nodes[p].value.Some? {
      assert HasYetToTake(s, h.claimers[k - 1], p);
    }
    if u :| 0 <= u < |s.threads| && HasYetToTake(s, u, p) {
      assert ThreadInv(s.mem, h, u, s.threads[u].pc);
      var b := s.threads[u].pc.p;
      assert s.mem.nodes[b].next == Succ(h, h.pos[b]);
    }
  }

  ghost predicate OneConsumer(s: State) {
    forall t, u :: 0 <= t < u < |s.threads| ==> !(s.threads[t].pc.InDequeue() && s.threads[u].pc.InDequeue())
  }

  lemma OneConsumerStep(s: State, a: Action)
    requires Inv(s) && OneConsumer(s) && Enabled(s, a) && Safe(s.mem, s.threads[a.t].pc)
    ensures Step(s, a).dropped == s.dropped
  {
    if a.Advance? && s.threads[a.t].pc.DeqDropNode? {
      hide Inv;
      DropsValueIff(s, a.t, s.threads[a.t].pc.p, s.threads[a.t].pc.res);
    }
  }

  /** With at most one `dequeue` in flight at a time, line 112 never drops a node that still holds a value. */
  lemma {:induction false} OneConsumerDropsNoValue(n: nat, acts: seq<Action>)
    requires IsRun(n, acts)
    requires forall k :: 0 <= k <= |acts| && IsRun(n, acts[..k]) ==> OneConsumer(After(n, acts[..k]))
    ensures After(n, acts).dropped == []
  {
    if acts != [] {
      var last := |acts| - 1;
      var init := acts[..last];
      var s, a := After(n, init), acts[last];
      assert After(n, acts) == Step(s, a) && IsRun(n, init) && OneConsumer(s);
      hide IsRun, After, Inv, Step, Safe, OneConsumer;
      forall k | 0 <= k <= |init| && IsRun(n, init[..k])
        ensures OneConsumer(After(n, init[..k]))
      {
        assert init[..k] == acts[..k];
      }
      OneConsumerDropsNoValue(n, init);
      Reachable(n, init);
      OneConsumerStep(s, a);
    }
  }

  lemma Go(n: nat, acts: seq<Action>, a: Action) returns (acts': seq<Action>, s: State)
    requires IsRun(n, acts) && Enabled(After(n, acts), a)
    ensures acts' == acts + [a] && IsRun(n, acts') && s == After(n, acts')
    ensures Safe(After(n, acts).mem, After(n, acts).threads[a.t].pc) && s == Step(After(n, acts), a)
  {
    RunsExtend(n, acts, a);
    acts' := acts + [a];
    s := After(n, acts');
  }

  /** Thread 0 alone: the call of `enqueue` and its loads of `tail`. */
  lemma EnqueueLoads(acts: seq<Action>, v: Value) returns (acts': seq<Action>)
    requires IsRun(2, acts) && |After(2, acts).threads| == 2 && Quiescent(After(2, acts))
    ensures IsRun(2, acts')
    ensures var s, s' := After(2, acts), After(2, acts');
            && s'.mem == s.mem.(nodes := s.mem.nodes + [Node(Some(v), None)]) && s'.dropped == s.dropped
            && |s'.threads| == 2 && s'.threads[1].pc.Idle?
            && s'.threads[0].pc == EnqLink(v, |s.mem.nodes|, s.mem.tail)
  {
    hide IsRun, After;
    var s;
    acts', s := Go(2, acts, CallEnqueue(0, v));
    acts', s := Go(2, acts', Advance(0));
    acts', s := Go(2, acts', Advance(0));
  }

  /** Thread 0 alone: the whole of `enqueue`, when `tail` is at the last node. */
  lemma EnqueueAlone(acts: seq<Action>, v: Value) returns (acts': seq<Action>)
    requires IsRun(2, acts) && |After(2, acts).threads| == 2 && Quiescent(After(2, acts))
    requires var m := After(2, acts).mem; m.tail < |m.nodes| && m.nodes[m.tail].next == None
    ensures IsRun(2, acts')
    ensures var s, s' := After(2, acts), After(2, acts');
            var m, q := s.mem, |s.mem.nodes|;
            && s'.mem == Memory(m.nodes[m.tail := m.nodes[m.tail].(next := Some(q))] + [Node(Some(v), None)], m.head, q)
            && |s'.threads| == 2 && Quiescent(s') && s'.dropped == s.dropped
  {
    hide IsRun, After;
    var s;
    acts' := EnqueueLoads(acts, v);
    acts', s := Go(2, acts', Advance(0));
    acts', s := Go(2, acts', Advance(0));
  }

  lemma TwoEnqueued(v: Value, w: Value) returns (acts: seq<Action>)
    ensures IsRun(2, acts)
    ensures var s := After(2, acts);
            && s.mem == Memory([Node(None, Some(1)), Node(Some(v), Some(2)), Node(Some(w), None)], 0, 2)
            && |s.threads| == 2 && Quiescent(s) && s.dropped == []
  {
    assert IsRun(2, []) && After(2, []) == Init(2);
    hide IsRun, After;
    acts := EnqueueAlone([], v);
    assert After(2, acts).mem == Memory([Node(None, Some(1)), Node(Some(v), None)], 0, 1);
    acts := EnqueueAlone(acts, w);
  }

  /** A thread that runs alone on a non-empty queue claims the first node in its call and five steps. */
  lemma TestAlone(acts: seq<Action>, t: nat, n: Addr) returns (acts': seq<Action>)
    requires IsRun(2, acts)
    requires var s := After(2, acts);
             && t < |s.threads| == 2 && s.threads[t].pc.Idle?
             && s.mem.head < |s.mem.nodes| && s.mem.nodes[s.mem.head].next == Some(n)
    ensures IsRun(2, acts')
    ensures var s, s' := After(2, acts), After(2, acts');
            && s'.mem == s.mem && s'.dropped == s.dropped && |s'.threads| == 2
            && s'.threads[1 - t] == s.threads[1 - t] && s'.threads[t].pc == DeqReadNext(s.mem.head)
  {
    hide IsRun, After;
    var s;
    acts', s := Go(2, acts, CallDequeue(t));
    acts', s := Go(2, acts', Advance(t));
    acts', s := Go(2, acts', Advance(t));
    acts', s := Go(2, acts', Advance(t));
  }

  lemma ClaimAlone(acts: seq<Action>, t: nat, n: Addr) returns (acts': seq<Action>)
    requires IsRun(2, acts)
    requires var s := After(2, acts);
             && t < |s.threads| == 2 && s.threads[t].pc.Idle?
             && s.mem.head < |s.mem.nodes| && s.mem.nodes[s.mem.head].next == Some(n)
    ensures IsRun(2, acts')
    ensures var s, s' := After(2, acts), After(2, acts');
            && s'.mem == s.mem.(head := n) && s'.dropped == s.dropped && |s'.threads| == 2
            && s'.threads[1 - t] == s.threads[1 - t] && s'.threads[t].pc == DeqReadClaimed(s.mem.head)
  {
    hide IsRun, After;
    var s;
    acts' := TestAlone(acts, t, n);
    acts', s := Go(2, acts', Advance(t));
    acts', s := Go(2, acts', Advance(t));
  }

  lemma FinishAlone(acts: seq<Action>, v: Value) returns (acts': seq<Action>)
    requires IsRun(2, acts)
    requires var s := After(2, acts);
             && |s.threads| == 2 && s.threads[1].pc == DeqReadClaimed(1) && s.dropped == []
             && |s.mem.nodes| == 3 && s.mem.nodes[1] == Node(Some(v), Some(2))
    ensures IsRun(2, acts') && After(2, acts').dropped == [v]
  {
    hide IsRun, After;
    var s;
    acts', s := Go(2, acts, Advance(1));
    acts', s := Go(2, acts', Advance(1));
    acts', s := Go(2, acts', Advance(1));
  }

  /** Both threads have claimed a node and taken nothing. */
  lemma BothClaim(v: Value, w: Value) returns (acts: seq<Action>)
    ensures IsRun(2, acts)
    ensures var s := After(2, acts);
            && |s.threads| == 2 && s.threads[1].pc == DeqReadClaimed(1) && s.dropped == []
            && |s.mem.nodes| == 3 && s.mem.nodes[1] == Node(Some(v), Some(2))
  {
    hide IsRun, After;
    var acts0 := TwoEnqueued(v, w);
    assert After(2, acts0).threads[0].pc.Idle? && After(2, acts0).threads[1].pc.Idle?;
    var acts1 := ClaimAlone(acts0, 0, 1);
    assert After(2, acts1).mem.nodes[1] == Node(Some(v), Some(2));
    acts := ClaimAlone(acts1, 1, 2);
  }

  /** With two consumers line 112 can drop a node that still holds a value: the second overtakes the first. */
  lemma TwoConsumersCanDropValue(v: Value, w: Value)
    ensures exists acts :: IsRun(2, acts) && After(2, acts).dropped == [v]
  {
    var acts := BothClaim(v, w);
    acts := FinishAlone(acts, v);
  }
}
