/** What every step of the thread pool keeps. */
module PoolSafety {
  import opened Wrappers
  import opened Totals
  import opened PoolMachine

  /** The message that a worker has received and not finished with; it never finishes with a `Terminate`. */
  function Consumed(p: Phase): multiset<Message> {
    match p
    case Waiting => multiset{}
    case Holding => multiset{}
    case Got(m) => multiset{m}
    case Running(job) => multiset{NewJob(job)}
    case Leaving => multiset{Terminate}
    case Stopped => multiset{Terminate}
  }

  function Hands(workers: seq<Phase>): seq<multiset<Message>> {
    seq(|workers|, w requires 0 <= w < |workers| => Consumed(workers[w]))
  }

  function InHand(workers: seq<Phase>): multiset<Message> {
    Union(Hands(workers))
  }

  function AsMessages(jobs: seq<Job>): seq<Message> {
    seq(|jobs|, i requires 0 <= i < |jobs| => NewJob(jobs[i]))
  }

  /** How many times the loop of lines 84-86 has sent. */
  function Terminates(s: State): nat {
    match s.owner
    case Open => 0
    case Sending(k) => k
    case Joining(_) => |s.workers|
    case Dropped => |s.workers|
  }

  /** Jobs first, then `k` terminates. */
  predicate JobsThenTerminates(sent: seq<Message>, k: nat) {
    k <= |sent| && forall i :: 0 <= i < |sent| ==> (sent[i].Terminate? <==> i >= |sent| - k)
  }

  predicate HasLock(p: Phase) {
    p.Holding? || p.Got?
  }

  predicate LockInv(s: State) {
    && (s.lock.Some? ==> s.lock.value < |s.workers|)
    && forall w :: 0 <= w < |s.workers| ==> (HasLock(s.workers[w]) <==> s.lock == Some(w))
  }

  predicate OwnerInv(s: State) {
    && |s.workers| > 0
    && (s.owner.Sending? || s.owner.Joining? ==> s.owner.k < |s.workers|)
    && (s.owner.Joining? ==> forall w :: 0 <= w < s.owner.k ==> s.workers[w].Stopped?)
    && (s.owner.Dropped? ==> forall w :: 0 <= w < |s.workers| ==> s.workers[w].Stopped?)
  }

  predicate ChannelInv(s: State) {
    && s.sent == s.received + s.channel
    && JobsThenTerminates(s.sent, Terminates(s))
    && Accounted(s)
  }

  predicate Inv(s: State) {
    LockInv(s) && OwnerInv(s) && ChannelInv(s)
  }

  lemma InHandUpdate(workers: seq<Phase>, w: nat, p: Phase)
    requires w < |workers|
    ensures InHand(workers[w := p]) + Consumed(workers[w]) == InHand(workers) + Consumed(p)
  {
    UnionUpdate(Hands(workers), w, Consumed(p));
    assert Hands(workers[w := p]) == Hands(workers)[w := Consumed(p)];
  }

  lemma InitInv(n: nat)
    requires n > 0
    ensures Inv(Init(n))
  {
    UnionEmpty(Hands(Init(n).workers));
  }

  /** Received messages are in a worker's hand or, if they are jobs, done. */
  predicate Accounted(s: State) {
    multiset(s.received) == InHand(s.workers) + multiset(AsMessages(s.done))
  }

  lemma ReceiveAccounts(s: State, w: nat)
    requires Accounted(s) && CanWork(s, w) && s.workers[w].Holding?
    ensures Accounted(Working(s, w))
  {
    var s', m := Working(s, w), s.channel[0];
    InHandUpdate(s.workers, w, Got(m));
    var hand, hand' := InHand(s.workers), InHand(s'.workers);
    hide InHand;
    assert hand' == hand' + Consumed(Holding) == hand + multiset{m};
  }

  lemma FinishAccounts(s: State, w: nat)
    requires Accounted(s) && CanWork(s, w) && s.workers[w].Running?
    ensures Accounted(Working(s, w))
  {
    var s', job := Working(s, w), s.workers[w].job;
    InHandUpdate(s.workers, w, Waiting);
    var hand, hand' := InHand(s.workers), InHand(s'.workers);
    hide InHand;
    assert AsMessages(s'.done) == AsMessages(s.done) + [NewJob(job)];
    assert hand == hand + Consumed(Waiting) == hand' + multiset{NewJob(job)};
  }

  lemma OtherWorkAccounts(s: State, w: nat)
    requires Accounted(s) && CanWork(s, w) && !s.workers[w].Holding? && !s.workers[w].Running?
    ensures Accounted(Working(s, w))
  {
    var p, p' := s.workers[w], Working(s, w).workers[w];
    InHandUpdate(s.workers, w, p');
    assert Consumed(p') == Consumed(p);
    Cancel(InHand(Working(s, w).workers), InHand(s.workers), Consumed(p));
  }

  lemma WorkKeepsChannel(s: State, w: nat)
    requires Inv(s) && CanWork(s, w)
    ensures ChannelInv(Working(s, w))
  {
    hide InHand, AsMessages, Consumed;
    if s.workers[w].Holding? {
      ReceiveAccounts(s, w);
      assert s.channel == [s.channel[0]] + s.channel[1..];
    } else if s.workers[w].Running? {
      FinishAccounts(s, w);
    } else {
      OtherWorkAccounts(s, w);
    }
  }

  lemma Cancel<T>(a: multiset<T>, b: multiset<T>, c: multiset<T>)
    requires a + c == b + c
    ensures a == b
  {
    assert a == (a + c) - c && b == (b + c) - c;
  }

  lemma WorkKeeps(s: State, w: nat)
    requires Inv(s) && CanWork(s, w)
    ensures Inv(Working(s, w))
  {
    hide ChannelInv;
    WorkKeepsChannel(s, w);
  }

  lemma StepKeeps(s: State, a: Action)
    requires Inv(s) && Enabled(s, a)
    ensures Inv(Step(s, a)) && |Step(s, a).workers| == |s.workers|
  {
    if a.Work? { WorkKeeps(s, a.w); }
  }

  lemma {:induction false} Reachable(n: nat, acts: seq<Action>)
    requires n > 0 && IsRun(n, acts)
    ensures Inv(After(n, acts)) && |After(n, acts).workers| == n
  {
    if acts == [] {
      InitInv(n);
    } else {
      var s := After(n, acts[..|acts| - 1]);
      assert After(n, acts) == Step(s, acts[|acts| - 1]);
      hide Inv, Step, Enabled;
      Reachable(n, acts[..|acts| - 1]);
      StepKeeps(s, acts[|acts| - 1]);
    }
  }

  lemma {:induction false} TerminateCount(sent: seq<Message>, k: nat)
    requires JobsThenTerminates(sent, k)
    ensures multiset(sent)[Terminate] == k
    ensures multiset(sent[..|sent| - k])[Terminate] == 0
  {
    assert Terminate !in sent[..|sent| - k];
    if k > 0 {
      var last := |sent| - 1;
      TerminateCount(sent[..last], k - 1);
      assert sent == sent[..last] + [Terminate];
      assert sent[..last][..last - (k - 1)] == sent[..|sent| - k];
    }
  }

  /** The messages are received in the order in which they were sent, and each is where it can be accounted for. */
  lemma MessagesConserved(s: State)
    requires Inv(s)
    ensures s.received <= s.sent
    ensures multiset(s.sent) == multiset(s.channel) + InHand(s.workers) + multiset(AsMessages(s.done))
  {
    hide InHand;
    assert multiset(s.sent) == multiset(s.received) + multiset(s.channel);
  }

  /** A job is never `Terminate`. */
  lemma DoneAreJobs(jobs: seq<Job>)
    ensures multiset(AsMessages(jobs))[Terminate] == 0
  {
    assert Terminate !in AsMessages(jobs);
  }

  /** Terminates not yet sent, and those in the channel, are just enough for the workers still alive. */
  lemma OneTerminateEach(s: State)
    requires Inv(s)
    ensures Terminates(s) == multiset(s.channel)[Terminate] + InHand(s.workers)[Terminate]
    ensures InHand(s.workers)[Terminate] <= |s.workers|
    ensures InHand(s.workers)[Terminate] == |s.workers| <==>
              forall w :: 0 <= w < |s.workers| ==> Consumed(s.workers[w])[Terminate] == 1
  {
    TerminateCount(s.sent, Terminates(s));
    MessagesConserved(s);
    DoneAreJobs(s.done);
    UnionCount(Hands(s.workers), Terminate);
    assert forall w :: 0 <= w < |s.workers| ==> Hands(s.workers)[w] == Consumed(s.workers[w]);
    hide InHand, AsMessages, JobsThenTerminates, LockInv, OwnerInv;
    assert multiset(s.sent)[Terminate] ==
           (multiset(s.channel) + InHand(s.workers) + multiset(AsMessages(s.done)))[Terminate];
  }

  /** Once a worker has a `Terminate` in hand, only terminates are left behind it. */
  lemma AfterTerminate(received: seq<Message>, channel: seq<Message>, k: nat)
    requires Terminate in received && JobsThenTerminates(received + channel, k)
    ensures forall m :: m in channel ==> m.Terminate?
  {
    var sent := received + channel;
    var i :| 0 <= i < |received| && received[i] == Terminate;
    assert sent[i].Terminate?;
    forall j | 0 <= j < |channel|
      ensures channel[j].Terminate?
    {
      assert channel[j] == sent[|received| + j];
    }
  }

  /** No worker is told to terminate while a job is still in the channel. */
  lemma NoEarlyStop(s: State, w: nat)
    requires Inv(s) && w < |s.workers| && Terminate in Consumed(s.workers[w])
    ensures forall m :: m in s.channel ==> m.Terminate?
  {
    UnionMember(Hands(s.workers), w);
    assert Terminate in multiset(s.received) by {
      assert Terminate in Hands(s.workers)[w];
    }
    AfterTerminate(s.received, s.channel, Terminates(s));
  }

  /** The jobs submitted. */
  function Submitted(s: State): seq<Message>
    requires Terminates(s) <= |s.sent|
  {
    s.sent[..|s.sent| - Terminates(s)]
  }

  /** When `drop` returns, every worker has stopped, the channel is empty, and each submitted job has run once. */
  lemma AllJobsDone(s: State)
    requires Inv(s) && s.owner.Dropped?
    ensures forall w :: 0 <= w < |s.workers| ==> s.workers[w].Stopped?
    ensures s.channel == []
    ensures multiset(AsMessages(s.done)) == multiset(Submitted(s))
  {
    OneTerminateEach(s);
    NoEarlyStop(s, 0);
    SomeTerminate(s.channel);
    OnlyJobsLeft(s);
  }

  /** When all that is in the workers' hands are terminates, what is done is what was submitted. */
  lemma OnlyJobsLeft(s: State)
    requires Inv(s) && s.owner.Dropped? && s.channel == []
    ensures multiset(AsMessages(s.done)) == multiset(Submitted(s))
  {
    NoJobInHand(s);
    NoJobInTail(s.sent, |s.workers|);
    MessagesConserved(s);
    TerminateCount(s.sent, |s.workers|);
    DoneAreJobs(s.done);
    hide InHand, JobsThenTerminates, LockInv, OwnerInv, AsMessages, Accounted;
    var tail := s.sent[|s.sent| - |s.workers|..];
    assert s.sent == Submitted(s) + tail;
    assert multiset(s.sent) == multiset(Submitted(s)) + multiset(tail);
    SplitOff(multiset(Submitted(s)), multiset(tail), InHand(s.workers), multiset(AsMessages(s.done)));
  }

  lemma NoJobInHand(s: State)
    requires forall w :: 0 <= w < |s.workers| ==> s.workers[w].Stopped?
    ensures forall m: Message :: m.NewJob? ==> m !in InHand(s.workers)
  {
    forall m: Message | m.NewJob?
      ensures m !in InHand(s.workers)
    {
      UnionAbsent(Hands(s.workers), m);
    }
  }

  lemma NoJobInTail(sent: seq<Message>, k: nat)
    requires JobsThenTerminates(sent, k)
    ensures forall m: Message :: m.NewJob? ==> m !in multiset(sent[|sent| - k..])
  {
    forall m: Message | m.NewJob?
      ensures m !in multiset(sent[|sent| - k..])
    {
      assert m !in sent[|sent| - k..];
    }
  }

  lemma SomeTerminate(channel: seq<Message>)
    requires forall m :: m in channel ==> m.Terminate?
    ensures channel != [] ==> multiset(channel)[Terminate] > 0
  {
    if channel != [] { assert channel[0] in channel; }
  }

  lemma SplitOff(jobs: multiset<Message>, tail: multiset<Message>, hand: multiset<Message>, done: multiset<Message>)
    requires jobs + tail == hand + done && jobs[Terminate] == 0 && done[Terminate] == 0
    requires forall m: Message :: m.NewJob? ==> m !in hand && m !in tail
    ensures done == jobs
  {
    forall m
      ensures done[m] == jobs[m]
    {
      assert (jobs + tail)[m] == (hand + done)[m];
    }
  }
}
