/** Whole runs of the thread pool, from its creation. */
module PoolRuns {
  import opened PoolMachine
  import opened PoolSafety

  /** The jobs given to `execute` in a run, in order. */
  function JobsOf(acts: seq<Action>): seq<Job> {
    if acts == [] then []
    else
      var last := acts[|acts| - 1];
      JobsOf(acts[..|acts| - 1]) + if last.Submit? then [last.job] else []
  }

  lemma SubmittedByStep(s: State, a: Action)
    requires Inv(s) && Enabled(s, a)
    ensures Inv(Step(s, a))
    ensures Submitted(Step(s, a)) == Submitted(s) + if a.Submit? then [NewJob(a.job)] else []
  {
    hide Accounted, LockInv;
    StepKeeps(s, a);
  }

  /** What was sent ahead of the terminates is what was submitted, in the order of submission. */
  lemma {:induction false} SubmittedInOrder(n: nat, acts: seq<Action>)
    requires n > 0 && IsRun(n, acts)
    ensures Inv(After(n, acts)) && Submitted(After(n, acts)) == AsMessages(JobsOf(acts))
    decreases |acts|
  {
    hide Inv, Step, Enabled, Submitted, AsMessages, JobsOf, Init;
    if acts == [] {
      NothingSubmitted(n);
    } else {
      var before, a := acts[..|acts| - 1], acts[|acts| - 1];
      SubmittedInOrder(n, before);
      SubmittedByStep(After(n, before), a);
      OneMoreAction(acts);
    }
  }

  lemma NothingSubmitted(n: nat)
    requires n > 0
    ensures Inv(Init(n)) && Submitted(Init(n)) == AsMessages(JobsOf([]))
  {
    InitInv(n);
  }

  lemma OneMoreAction(acts: seq<Action>)
    requires acts != []
    ensures var a := acts[|acts| - 1];
            AsMessages(JobsOf(acts))
            == AsMessages(JobsOf(acts[..|acts| - 1])) + if a.Submit? then [NewJob(a.job)] else []
  {
  }

  /** How often a job occurs, counted by position. */
  lemma {:induction false} SameCounts(jobs: seq<Job>, job: Job)
    ensures multiset(AsMessages(jobs))[NewJob(job)] == multiset(jobs)[job]
    decreases |jobs|
  {
    if jobs != [] {
      var last := |jobs| - 1;
      SameCounts(jobs[..last], job);
      assert jobs == jobs[..last] + [jobs[last]];
      assert AsMessages(jobs) == AsMessages(jobs[..last]) + [NewJob(jobs[last])];
    }
  }

  lemma TailIsTerminates(sent: seq<Message>, k: nat)
    requires JobsThenTerminates(sent, k)
    ensures sent == sent[..|sent| - k] + seq(k, _ => Terminate)
  {
    forall i | |sent| - k <= i < |sent|
      ensures sent[i] == Terminate
    {
      assert sent[i].Terminate?;
    }
  }

  /**
   At any time of any run the channel has been sent the submitted jobs, in the order of submission, and after them the
   terminates of `drop`, and has delivered the first ones of these, in the same order.
  */
  lemma DeliveredInOrder(n: nat, acts: seq<Action>)
    requires n > 0 && IsRun(n, acts)
    ensures var s := After(n, acts);
            && s.sent == AsMessages(JobsOf(acts)) + seq(Terminates(s), _ => Terminate)
            && s.received <= s.sent && s.sent == s.received + s.channel
  {
    SubmittedInOrder(n, acts);
    var s := After(n, acts);
    hide AsMessages, IsRun, After, JobsOf, Accounted, LockInv, OwnerInv, JobsThenTerminates;
    TailIsTerminates(s.sent, Terminates(s));
  }

  /** At any time of any run, each job has been submitted as often as it is queued, in a worker's hands and done. */
  lemma JobsConserved(n: nat, acts: seq<Action>, job: Job)
    requires n > 0 && IsRun(n, acts)
    ensures var s := After(n, acts);
            && multiset(JobsOf(acts))[job] == multiset(s.channel)[NewJob(job)] + InHand(s.workers)[NewJob(job)]
                                             + multiset(s.done)[job]
            && s.received <= AsMessages(JobsOf(acts)) + seq(Terminates(s), _ => Terminate)
  {
    var s := After(n, acts);
    SubmittedInOrder(n, acts);
    DeliveredInOrder(n, acts);
    MessagesConserved(s);
    SameCounts(s.done, job);
    SameCounts(JobsOf(acts), job);
    NoJobInTail(s.sent, Terminates(s));
    hide InHand, AsMessages, JobsThenTerminates, LockInv, OwnerInv, IsRun, After, JobsOf, Accounted;
    var tail := s.sent[|s.sent| - Terminates(s)..];
    assert s.sent == Submitted(s) + tail;
    assert multiset(s.sent)[NewJob(job)] == multiset(Submitted(s))[NewJob(job)] + multiset(tail)[NewJob(job)];
    assert multiset(s.sent)[NewJob(job)] ==
           (multiset(s.channel) + InHand(s.workers) + multiset(AsMessages(s.done)))[NewJob(job)];
  }

  /** In any run in which `drop` has returned, every submitted job has run exactly once and every worker has stopped. */
  lemma DroppedPoolIsDone(n: nat, acts: seq<Action>)
    requires n > 0 && IsRun(n, acts) && After(n, acts).owner.Dropped?
    ensures var s := After(n, acts);
            && multiset(s.done) == multiset(JobsOf(acts))
            && s.channel == [] && |s.workers| == n && forall w :: 0 <= w < n ==> s.workers[w].Stopped?
  {
    var s := After(n, acts);
    Reachable(n, acts);
    SubmittedInOrder(n, acts);
    AllJobsDone(s);
    hide Inv, AsMessages, IsRun, After, JobsOf, Submitted;
    forall job
      ensures multiset(s.done)[job] == multiset(JobsOf(acts))[job]
    {
      SameCounts(s.done, job);
      SameCounts(JobsOf(acts), job);
    }
  }
}
