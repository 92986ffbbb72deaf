/** Shutting the thread pool down cannot get stuck and cannot go on for ever. */
module PoolShutdown {
  import opened Totals
  import opened PoolMachine
  import opened PoolSafety

  /** A worker that has a job or a `Terminate` in hand, or could receive one, is never all blocked. */
  lemma SomeoneCanWork(s: State, w: nat)
    requires Inv(s) && w < |s.workers| && !s.workers[w].Stopped?
    requires s.channel != [] || Consumed(s.workers[w]) != multiset{}
    ensures exists v :: CanWork(s, v)
  {
    if s.workers[w].Waiting? && s.lock.Some? {
      assert HasLock(s.workers[s.lock.value]);
      assert CanWork(s, s.lock.value);
    } else {
      assert CanWork(s, w);
    }
  }

  /** After the last `Terminate` is sent, a worker that has not yet received one finds the channel not empty. */
  lemma TerminateIsThere(s: State, w: nat)
    requires Inv(s) && (s.owner.Joining? || s.owner.Dropped?) && w < |s.workers|
    requires Terminate !in Consumed(s.workers[w])
    ensures s.channel != []
  {
    OneTerminateEach(s);
  }

  /** From the start of `drop` until it returns, the owner or some worker can take a step. */
  lemma NoDeadlock(s: State)
    requires Inv(s) && !s.owner.Open? && !s.owner.Dropped?
    ensures Enabled(s, Send) || Enabled(s, Join) || exists w :: CanWork(s, w)
  {
    if s.owner.Joining? && !Enabled(s, Join) {
      var w := s.owner.k;
      if Terminate !in Consumed(s.workers[w]) {
        TerminateIsThere(s, w);
      }
      SomeoneCanWork(s, w);
    }
  }

  function Weight(p: Phase): nat {
    match p
    case Waiting => 2
    case Holding => 1
    case Got(_) => 4
    case Running(_) => 3
    case Leaving => 1
    case Stopped => 0
  }

  function Weights(workers: seq<Phase>): seq<nat> {
    seq(|workers|, w requires 0 <= w < |workers| => Weight(workers[w]))
  }

  function OwnerWeight(s: State): int {
    match s.owner
    case Open => 0
    case Sending(k) => 6 * (|s.workers| - k) + |s.workers|
    case Joining(k) => |s.workers| - k
    case Dropped => 0
  }

  /** What is left to do: messages to send and to receive, jobs to run, workers to stop and to join. */
  function Remaining(s: State): int {
    OwnerWeight(s) + 4 * |s.channel| + Sum(Weights(s.workers))
  }

  lemma RemainingIsNatural(s: State)
    requires Inv(s)
    ensures Remaining(s) >= 0
  {}

  /** Every step but a submission, or the start of `drop`, leaves less to do. */
  lemma StepLeavesLess(s: State, a: Action)
    requires Inv(s) && Enabled(s, a) && !a.Submit? && !a.StartDrop?
    ensures Remaining(Step(s, a)) < Remaining(s)
  {
    if a.Work? {
      var p := Step(s, a).workers[a.w];
      SumUpdate(Weights(s.workers), a.w, Weight(p));
      assert Weights(s.workers[a.w := p]) == Weights(s.workers)[a.w := Weight(p)];
    }
  }

  /** `acts` can be taken one after the other from `s`, with no submission among them. */
  predicate Shuts(s: State, acts: seq<Action>)
    decreases |acts|
  {
    acts == [] ||
    (Enabled(s, acts[0]) && !acts[0].Submit? && !acts[0].StartDrop? && Shuts(Step(s, acts[0]), acts[1..]))
  }

  function ShutTo(s: State, acts: seq<Action>): State
    requires Shuts(s, acts)
    decreases |acts|
  {
    if acts == [] then s else ShutTo(Step(s, acts[0]), acts[1..])
  }

  /**
   However the steps after the start of `drop` are scheduled, there are at most `Remaining(s)` of them; and if none
   can follow, `drop` has returned.
  */
  lemma {:induction false} ShutdownEnds(s: State, acts: seq<Action>)
    requires Inv(s) && !s.owner.Open? && Shuts(s, acts)
    ensures |acts| <= Remaining(s) && Inv(ShutTo(s, acts))
    ensures var s' := ShutTo(s, acts);
            Enabled(s', Send) || Enabled(s', Join) || (exists w :: CanWork(s', w)) || s'.owner.Dropped?
    decreases |acts|
  {
    hide Inv, Remaining;
    if acts == [] {
      RemainingIsNatural(s);
      if !s.owner.Dropped? { NoDeadlock(s); }
    } else {
      StepKeeps(s, acts[0]);
      StepLeavesLess(s, acts[0]);
      assert !Step(s, acts[0]).owner.Open?;
      ShutdownEnds(Step(s, acts[0]), acts[1..]);
    }
  }
}
