/**
 The thread pool as it is written. Its owner's methods are interleaved with the steps of the workers, which are
 scheduled in any way.
*/
module ThreadPool {
  import opened Wrappers
  import opened PoolMachine
  import opened PoolSafety
  import opened PoolShutdown

  /** The workers do not change what has been submitted. */
  lemma SameJobs(s: State, w: nat)
    requires Inv(s) && CanWork(s, w)
    ensures Inv(Step(s, Work(w))) && Submitted(Step(s, Work(w))) == Submitted(s)
    ensures |Step(s, Work(w)).workers| == |s.workers|
  {
    hide Inv;
    StepKeeps(s, Work(w));
  }

  class ThreadPool {
    /** Where each worker is, and whether its thread has been joined. */
    var workers: seq<Phase>
    var joined: nat
    var lock: Option<nat>
    var channel: seq<Message>
    ghost var owner: Owner
    ghost var sent: seq<Message>
    ghost var received: seq<Message>
    var done: seq<Job>

    ghost function S(): State
      reads this
    {
      State(workers, lock, channel, owner, sent, received, done)
    }

    /** `ThreadPool::new`, which asserts that the size is positive. */
    constructor (size: nat)
      requires size > 0
      ensures S() == Init(size) && Inv(S()) && joined == 0
    {
      workers := seq(size, _ => Waiting);
      joined := 0;
      lock := None;
      channel := [];
      owner, sent, received, done := Open, [], [], [];
      new;
      InitInv(size);
    }

    method Execute(job: Job)
      requires Inv(S()) && owner.Open?
      modifies this
      ensures S() == Step(old(S()), Submit(job)) && Inv(S()) && joined == old(joined)
    {
      StepKeeps(S(), Submit(job));
      channel := channel + [NewJob(job)];
      sent := sent + [NewJob(job)];
    }

    /** The loop of lines 19-36, up to the next place where the worker may have to wait. */
    method WorkerStep(w: nat)
      requires Inv(S()) && CanWork(S(), w)
      modifies this`workers, this`lock, this`channel, this`received, this`done
      ensures S() == Step(old(S()), Work(w)) && Inv(S())
    {
      StepKeeps(S(), Work(w));
      match workers[w]
      case Waiting =>
        lock := Some(w);
        workers := workers[w := Holding];
      case Holding =>
        var message := channel[0];
        channel := channel[1..];
        received := received + [message];
        workers := workers[w := Got(message)];
      case Got(message) =>
        lock := None;
        match message {
          case NewJob(job) => workers := workers[w := Running(job)];
          case Terminate => workers := workers[w := Leaving];
        }
      case Running(job) =>
        done := done + [job];
        workers := workers[w := Waiting];
      case Leaving =>
        workers := workers[w := Stopped];
    }

    /** What the owner relies on while workers go on: `jobs` have been submitted. */
    ghost predicate Is(o: Owner, size: nat, j: nat, jobs: seq<Message>)
      reads this
    {
      Inv(S()) && owner == o && |workers| == size && joined == j && Submitted(S()) == jobs
    }

    /** Some worker that can work does. */
    method SomeWorkerStep(ghost o: Owner, ghost size: nat, ghost j: nat, ghost jobs: seq<Message>)
      requires Is(o, size, j, jobs) && exists w :: CanWork(S(), w)
      modifies this`workers, this`lock, this`channel, this`received, this`done
      ensures Is(o, size, j, jobs) && Remaining(S()) < old(Remaining(S()))
    {
      ghost var s := S();
      assert s.workers == workers && s.lock == lock && s.channel == channel;
      ghost var v: nat :| CanWork(s, v);
      assert v < |workers| && CanGoOn(workers[v], lock, channel);
      var w :| 0 <= w < |workers| && CanGoOn(workers[w], lock, channel);
      assert CanWork(s, w);
      StepLeavesLess(s, Work(w));
      SameJobs(s, w);
      WorkerStep(w);
    }

    /** Any number of worker steps, chosen in any way. */
    method Interfere(ghost o: Owner, ghost size: nat, ghost j: nat, ghost jobs: seq<Message>)
      requires Is(o, size, j, jobs)
      modifies this`workers, this`lock, this`channel, this`received, this`done
      ensures Is(o, size, j, jobs)
    {
      var go: bool := *;
      while go && exists w :: 0 <= w < |workers| && CanGoOn(workers[w], lock, channel)
        invariant Is(o, size, j, jobs)
        decreases Remaining(S())
      {
        RemainingIsNatural(S());
        ghost var w :| 0 <= w < |workers| && CanGoOn(workers[w], lock, channel);
        assert CanWork(S(), w);
        SomeWorkerStep(o, size, j, jobs);
        go := *;
      }
    }

    method SendTerminate(ghost k: nat, ghost size: nat, ghost jobs: seq<Message>)
      requires Is(Sending(k), size, 0, jobs)
      modifies this`channel, this`owner, this`sent
      ensures Is(if k + 1 < size then Sending(k + 1) else Joining(0), size, 0, jobs)
    {
      StepKeeps(S(), Send);
      channel := channel + [Terminate];
      sent := sent + [Terminate];
      owner := if k + 1 < |workers| then Sending(k + 1) else Joining(0);
      assert Submitted(S()) == jobs;
      hide Inv, Submitted;
    }

    /** `thread.join()` of worker `k`: wait until it has stopped. */
    method JoinWorker(k: nat, ghost size: nat, ghost jobs: seq<Message>)
      requires k < size && Is(Joining(k), size, k, jobs)
      modifies this
      ensures Is(if k + 1 < size then Joining(k + 1) else Dropped, size, k + 1, jobs)
    {
      while !workers[k].Stopped?
        invariant Is(Joining(k), size, k, jobs)
        decreases Remaining(S())
      {
        NoDeadlock(S());
        RemainingIsNatural(S());
        SomeWorkerStep(Joining(k), size, k, jobs);
      }
      StepKeeps(S(), Join);
      joined := joined + 1;
      owner := if k + 1 < |workers| then Joining(k + 1) else Dropped;
    }

    /**
     `drop`: send one `Terminate` for each worker, then join the workers in turn. However the workers are scheduled
     it returns; and then every worker has stopped and every job submitted has run, once.
    */
    method Drop()
      requires Inv(S()) && owner.Open? && joined == 0
      modifies this
      ensures Inv(S()) && owner.Dropped? && joined == |workers| == old(|workers|)
      ensures forall w :: 0 <= w < |workers| ==> workers[w].Stopped?
      ensures channel == [] && multiset(AsMessages(done)) == multiset(old(sent))
    {
      var size := |workers|;
      ghost var jobs := sent;
      StepKeeps(S(), StartDrop);
      owner := Sending(0);
      assert Is(Sending(0), size, 0, jobs) && size > 0;
      hide Inv, Submitted;
      for k := 0 to size
        invariant Is(if k < size then Sending(k) else Joining(0), size, 0, jobs)
      {
        Interfere(Sending(k), size, 0, jobs);
        SendTerminate(k, size, jobs);
      }
      for k := 0 to size
        invariant Is(if k < size then Joining(k) else Dropped, size, k, jobs)
      {
        Interfere(Joining(k), size, k, jobs);
        JoinWorker(k, size, jobs);
      }
      AllJobsDone(S());
    }
  }
}
