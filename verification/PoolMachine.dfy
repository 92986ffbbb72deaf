/**
 The thread pool as a transition system: `n` workers share one channel under a mutex; the owner submits jobs and then
 drops the pool. One step is one blocking or shared operation, plus the local code up to the next one.
*/
module PoolMachine {
  import opened Wrappers

  /** A job, which returns when it is run. */
  type Job(==, !new)

  datatype Message = NewJob(job: Job) | Terminate

  /** Where a worker is in the loop of lines 19-36. */
  datatype Phase =
    | Waiting                 // before `lock()`, line 20
    | Holding                 // in `recv()`, with the lock
    | Got(m: Message)         // at the end of the statement, where the guard is dropped
    | Running(job: Job)       // line 26
    | Leaving                 // line 33
    | Stopped

  /** Where the owner is: before `drop`, or in its loops of lines 84-86 and 90-96, or after it. */
  datatype Owner = Open | Sending(k: nat) | Joining(k: nat) | Dropped

  /** `sent` and `received` log the channel's messages, and `done` the jobs that have returned; no step reads them. */
  datatype State = State(
    workers: seq<Phase>, lock: Option<nat>, channel: seq<Message>, owner: Owner,
    sent: seq<Message>, received: seq<Message>, done: seq<Job>)

  datatype Action = Submit(job: Job) | StartDrop | Send | Join | Work(w: nat)

  function Init(n: nat): State
    requires n > 0
  {
    State(seq(n, _ => Waiting), None, [], Open, [], [], [])
  }

  /** A worker is not blocked on the lock or on an empty channel, and not stopped. */
  predicate CanGoOn(p: Phase, lock: Option<nat>, channel: seq<Message>) {
    match p
    case Waiting => lock.None?
    case Holding => channel != []
    case Got(_) => true
    case Running(_) => true
    case Leaving => true
    case Stopped => false
  }

  predicate CanWork(s: State, w: nat) {
    w < |s.workers| && CanGoOn(s.workers[w], s.lock, s.channel)
  }

  predicate Enabled(s: State, a: Action) {
    match a
    case Submit(_) => s.owner.Open?
    case StartDrop => s.owner.Open?
    case Send => s.owner.Sending?
    case Join => s.owner.Joining? && s.owner.k < |s.workers| && s.workers[s.owner.k].Stopped?
    case Work(w) => CanWork(s, w)
  }

  function Working(s: State, w: nat): State
    requires CanWork(s, w)
  {
    match s.workers[w]
    case Waiting => s.(workers := s.workers[w := Holding], lock := Some(w))
    case Holding =>
      s.(workers := s.workers[w := Got(s.channel[0])], channel := s.channel[1..],
         received := s.received + [s.channel[0]])
    case Got(m) =>
      s.(workers := s.workers[w := match m case NewJob(job) => Running(job) case Terminate => Leaving], lock := None)
    case Running(job) => s.(workers := s.workers[w := Waiting], done := s.done + [job])
    case Leaving => s.(workers := s.workers[w := Stopped])
  }

  function Put(s: State, m: Message): State {
    s.(channel := s.channel + [m], sent := s.sent + [m])
  }

  function Step(s: State, a: Action): State
    requires Enabled(s, a)
  {
    match a
    case Submit(job) => Put(s, NewJob(job))
    case StartDrop => s.(owner := Sending(0))
    case Send =>
      var k := s.owner.k + 1;
      Put(s, Terminate).(owner := if k < |s.workers| then Sending(k) else Joining(0))
    case Join =>
      var k := s.owner.k + 1;
      s.(owner := if k < |s.workers| then Joining(k) else Dropped)
    case Work(w) => Working(s, w)
  }

  predicate IsRun(n: nat, acts: seq<Action>)
    requires n > 0
    decreases |acts|, 0
  {
    acts == [] ||
    (IsRun(n, acts[..|acts| - 1]) && Enabled(After(n, acts[..|acts| - 1]), acts[|acts| - 1]))
  }

  function After(n: nat, acts: seq<Action>): State
    requires n > 0 && IsRun(n, acts)
    decreases |acts|, 1
  {
    if acts == [] then Init(n) else Step(After(n, acts[..|acts| - 1]), acts[|acts| - 1])
  }
}
