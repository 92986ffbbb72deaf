/**
 The lock-free queue as a transition system. Any number of threads run `enqueue` and `dequeue`;
 one step is one access to shared memory (sequentially consistent), plus the local code up to the next access.
 */
module QueueMachine {
  import opened Wrappers

  /** The payload type `T` of the queue. */
  type Value(==, !new)

  /** Node addresses are allocation numbers. Leaked nodes are never given back, so no address is used twice. */
  type Addr = nat

  datatype Node = Node(value: Option<Value>, next: Option<Addr>)

  /** Where a thread is, named by the access it performs next, with its local variables. */
  datatype Pc =
    | Idle
    | EnqFirstLoad(v: Value, q: Addr)                              // line 61
    | EnqLoadTail(v: Value, q: Addr)                               // line 64
    | EnqLink(v: Value, q: Addr, p: Addr)                          // lines 66-70
    | EnqReadNext(v: Value, q: Addr, p: Addr)                      // line 75
    | EnqHelp(v: Value, q: Addr, p: Addr, n: Option<Addr>)         // lines 73-78
    | EnqSwing(v: Value, q: Addr, p: Addr)                         // lines 84-85
    | DeqFirstLoad                                                 // line 89
    | DeqLoadHead                                                  // line 91
    | DeqTest(p: Addr)                                             // line 93
    | DeqEmpty                                                     // line 94
    | DeqReadNext(p: Addr)                                         // line 101
    | DeqClaim(p: Addr, n: Option<Addr>)                           // lines 97-105
    | DeqReadClaimed(p: Addr)                                      // line 111, the load
    | DeqTake(p: Addr, m: Option<Addr>)                            // line 111, the take
    | DeqDropNode(p: Addr, res: Option<Value>)                     // lines 112-114
  {
    /** `dequeue` has moved `head` past `a` but has not yet taken the value. */
    predicate Holds(a: Addr) {
      (DeqReadClaimed? || DeqTake?) && p == a
    }

    predicate InEnqueue() {
      EnqFirstLoad? || EnqLoadTail? || EnqLink? || EnqReadNext? || EnqHelp? || EnqSwing?
    }

    predicate InDequeue() {
      !Idle? && !InEnqueue()
    }
  }

  /** A thread, with counters of its calls, its steps and its failed loop iterations. */
  datatype Thread = Thread(pc: Pc, calls: nat, steps: nat, enqRetries: nat, deqRetries: nat)

  datatype Memory = Memory(nodes: seq<Node>, head: Addr, tail: Addr)

  /**
   History that no step reads: the linked nodes in order with their positions and values, the allocating
   thread of each node, and the thread that made each claim (each successful exchange of `head`).
   */
  datatype History = History(
    chain: seq<Addr>, pos: map<Addr, nat>, vals: seq<Value>, owner: seq<nat>, claimers: seq<nat>)

  /** `returned` and `dropped` log the values returned, and those still in a node when line 112 dropped it. */
  datatype State = State(
    mem: Memory, threads: seq<Thread>, hist: History, returned: seq<Value>, dropped: seq<Value>)

  datatype Action = CallEnqueue(t: nat, v: Value) | CallDequeue(t: nat) | Advance(t: nat)

  /** `LockFreeQueue::new`, shared by `n` threads. */
  function Init(n: nat): State {
    State(Memory([Node(None, None)], 0, 0), seq(n, _ => Thread(Idle, 0, 0, 0, 0)),
          History([0], map[0 := 0], [], [n], []), [], [])
  }

  predicate Enabled(s: State, a: Action) {
    a.t < |s.threads| && (s.threads[a.t].pc.Idle? <==> !a.Advance?)
  }

  predicate NotNull(m: Memory, a: Option<Addr>) {
    a.Some? && a.value < |m.nodes|
  }

  /** Every pointer that a thread at `pc` follows next, or stores in `head` or `tail`, is a node and not null. */
  predicate Safe(m: Memory, pc: Pc) {
    match pc
    case EnqLink(_, q, p) => q < |m.nodes| && p < |m.nodes|
    case EnqReadNext(_, _, p) => p < |m.nodes|
    case EnqHelp(_, _, _, n) => NotNull(m, n)
    case DeqTest(p) => p < |m.nodes|
    case DeqReadNext(p) => p < |m.nodes|
    case DeqClaim(_, n) => NotNull(m, n)
    case DeqReadClaimed(p) => p < |m.nodes|
    case DeqTake(_, m') => NotNull(m, m')
    case DeqDropNode(p, _) => p < |m.nodes|
    case _ => true
  }

  /** The exchange of `p.next` from null to `q`, which adds `q` to the chain. */
  function Link(m: Memory, p: Addr, q: Addr): Memory
    requires p < |m.nodes|
  {
    m.(nodes := m.nodes[p := m.nodes[p].(next := Some(q))])
  }

  function Linked(h: History, q: Addr, v: Value): History {
    h.(chain := h.chain + [q], pos := h.pos[q := |h.chain|], vals := h.vals + [v])
  }

  /** `value.take()` on node `a`. */
  function Take(m: Memory, a: Addr): Memory
    requires a < |m.nodes|
  {
    m.(nodes := m.nodes[a := m.nodes[a].(value := None)])
  }

  function Append(s: seq<Value>, v: Option<Value>): seq<Value> {
    match v case None => s case Some(x) => s + [x]
  }

  /** One access of `enqueue` to shared memory: what becomes of the memory and where the thread is then. */
  function EnqueueAccess(m: Memory, pc: Pc): (r: (Memory, Pc))
    requires pc.InEnqueue() && Safe(m, pc)
    ensures r.1.InEnqueue() || r.1.Idle?
  {
    match pc
    case EnqFirstLoad(v, q) => (m, EnqLoadTail(v, q))
    case EnqLoadTail(v, q) => (m, EnqLink(v, q, m.tail))
    case EnqLink(v, q, p) =>
      if m.nodes[p].next.None? then (Link(m, p, q), EnqSwing(v, q, p)) else (m, EnqReadNext(v, q, p))
    case EnqReadNext(v, q, p) => (m, EnqHelp(v, q, p, m.nodes[p].next))
    case EnqHelp(v, q, p, n) => (m.(tail := if m.tail == p then n.value else m.tail), EnqLoadTail(v, q))
    case EnqSwing(v, q, p) => (m.(tail := if m.tail == p then q else m.tail), Idle)
  }

  /** One access of `dequeue`. */
  function DequeueAccess(m: Memory, pc: Pc): (r: (Memory, Pc))
    requires pc.InDequeue() && Safe(m, pc)
    ensures r.1.InDequeue() || r.1.Idle?
  {
    match pc
    case DeqFirstLoad => (m, DeqLoadHead)
    case DeqLoadHead => (m, DeqTest(m.head))
    case DeqTest(p) => (m, if m.nodes[p].next.None? then DeqEmpty else DeqReadNext(p))
    case DeqEmpty => (m, Idle)
    case DeqReadNext(p) => (m, DeqClaim(p, m.nodes[p].next))
    case DeqClaim(p, n) => if m.head == p then (m.(head := n.value), DeqReadClaimed(p)) else (m, DeqLoadHead)
    case DeqReadClaimed(p) => (m, DeqTake(p, m.nodes[p].next))
    case DeqTake(p, a) => (Take(m, a.value), DeqDropNode(p, m.nodes[a.value].value))
    case DeqDropNode(_, _) => (m, Idle)
  }

  function EnqueueMove(s: State, t: nat): State
    requires t < |s.threads| && s.threads[t].pc.InEnqueue() && Safe(s.mem, s.threads[t].pc)
  {
    var me := s.threads[t];
    var (m', pc') := EnqueueAccess(s.mem, me.pc);
    s.(mem := m',
       hist := if me.pc.EnqLink? && s.mem.nodes[me.pc.p].next.None? then Linked(s.hist, me.pc.q, me.pc.v) else s.hist,
       threads := s.threads[t := me.(pc := pc', steps := me.steps + 1,
                                     enqRetries := me.enqRetries + if me.pc.EnqHelp? then 1 else 0)])
  }

  function DequeueMove(s: State, t: nat): State
    requires t < |s.threads| && s.threads[t].pc.InDequeue() && Safe(s.mem, s.threads[t].pc)
  {
    var me := s.threads[t];
    var (m', pc') := DequeueAccess(s.mem, me.pc);
    var claims := me.pc.DeqClaim? && s.mem.head == me.pc.p;
    var drops := me.pc.DeqDropNode?;
    s.(mem := m',
       hist := if claims then s.hist.(claimers := s.hist.claimers + [t]) else s.hist,
       threads := s.threads[t := me.(pc := pc', steps := me.steps + 1,
                                     deqRetries := me.deqRetries + if me.pc.DeqClaim? && !claims then 1 else 0)],
       dropped := if drops then Append(s.dropped, s.mem.nodes[me.pc.p].value) else s.dropped,
       returned := if drops then Append(s.returned, me.pc.res) else s.returned)
  }

  function Step(s: State, a: Action): State
    requires Enabled(s, a) && Safe(s.mem, s.threads[a.t].pc)
  {
    match a
    case CallEnqueue(t, v) =>
      var me := s.threads[t];
      var q := |s.mem.nodes|;
      s.(mem := s.mem.(nodes := s.mem.nodes + [Node(Some(v), None)]), hist := s.hist.(owner := s.hist.owner + [t]),
         threads := s.threads[t := me.(pc := EnqFirstLoad(v, q), calls := me.calls + 1, steps := me.steps + 1)])
    case CallDequeue(t) =>
      var me := s.threads[t];
      s.(threads := s.threads[t := me.(pc := DeqFirstLoad, calls := me.calls + 1, steps := me.steps + 1)])
    case Advance(t) => if s.threads[t].pc.InEnqueue() then EnqueueMove(s, t) else DequeueMove(s, t)
  }

  /** `acts` is an interleaving of `n` threads, from a new queue. */
  predicate IsRun(n: nat, acts: seq<Action>)
    decreases |acts|, 0
  {
    acts == [] ||
    var last := |acts| - 1;
    IsRun(n, acts[..last]) &&
    var s := After(n, acts[..last]);
    Enabled(s, acts[last]) && Safe(s.mem, s.threads[acts[last].t].pc)
  }

  function After(n: nat, acts: seq<Action>): State
    requires IsRun(n, acts)
    decreases |acts|, 1
  {
    if acts == [] then Init(n)
    else
      var last := |acts| - 1;
      Step(After(n, acts[..last]), acts[last])
  }
}
