# Verified models of the demos

This project models four demos of the repository in Dafny and proves properties of the models for all inputs, all
schedules and all runs.

* **The lock-free queue** (`queue/src/lock_free_queue.rs`) is a transition system in `QueueMachine`: any number of
  threads, one step for each access to shared memory, nodes that are never given back. `QueueInvariant` holds the
  invariant of all steps, `Linearizability`, `QueueRealTime` and `QueueProducers` the refinement of the lock-based queue
  through the atomic object of `AtomicQueue`, `QueueHistory` what whole runs keep, `QueueProgress` lock-freedom, and `QueueDrops`
  what `drop_in_place` meets. `LockFreeQueue` is the code itself, with its loops, run by one thread while the others
  interfere; it is proved against the transition system.
* **SHA-256 and the counter search** (`SHA256/src/main.rs`): `Fips180` is the hash function as FIPS 180-4 defines it;
  `Sha256Constants`, `Sha256Bits` and `Sha256Equations` say what its constants, its bit functions and its result are
  without those definitions; `Sha256` is the code on arrays, proved to compute it; `Sha256Padding` and `Sha256Rounds` are
  properties of the standard's construction; `CounterSearch` is the loop of the four workers.
* **The thread pool** (`WebServerDemoInRust/src/lib.rs`): `PoolMachine` is a transition system for any number of workers
  and jobs, `PoolSafety`, `PoolShutdown` and `PoolRuns` are its properties, and `ThreadPool` is the owner's code,
  interleaved with the workers.
* **myls** (`myls/myls.c`): `MylsOrder` is the insertion sort in place; `MylsStability` and `MylsReverse` say what it
  achieves for orders, `MylsWalks` and `MylsBackwards` for comparisons that need not be orders, and `MylsCompare` for the
  comparisons of the program. `MylsListing` is one listing with its block total, and `MylsOptions` what it shows under each
  combination of options. `MylsFiles` and `MylsTraversal` are the
  recursive listing over a file tree; `MylsSections`, `MylsHeaders`, `MylsRestore`, `MylsEnding`, `MylsRuns` and
  `MylsParameters` say what it prints, where it ends, and whether it does.

## Reading the models

Each access to an atomic is one step, and all threads see the steps in one order (sequential consistency). The history
fields of the queue's state (`chain`, `pos`, `vals`, `owner`, `claimers`) are read by no step. In the class
`LockFreeQueue` the field `env` is an arbitrary schedule for the other threads, and before each access of the running
thread any part of it is executed; this makes the loop bounds of `Enqueue` and `Dequeue` depend on the schedule, which
is what lock-freedom allows.

Words and bytes of SHA-256 are natural numbers below 2^32 and 2^8; additions are written modulo 2^32, rotations and
logical operations are done on bit vectors.

A process in myls is its current directory and what it has printed. `stack` in `MylsTraversal` is the number of frames of
`list_content_dir` that still fit on the call stack; `None` means that they did not suffice.

## Where the code does not do what is said of it

* Line 112 of the lock-free queue drops the node that `head` has left. With several consumers that node can still hold
  a value (`QueueDrops.TwoConsumersCanDropValue`). It does exactly when the thread that claimed the value has not yet
  reached the take of line 111 (`QueueDrops.DropsValueIff`), which cannot happen with one consumer at a time
  (`QueueDrops.OneConsumerDropsNoValue`).
* `digest` panics on the empty message, because the block count falls below zero; `Sha256.DigestOf` gives `None`.
* `cmp` of myls returns a 64-bit difference as an `int`. The distinct entries of a directory come out in the order meant,
  in whatever order they are read, exactly when every difference between two of them keeps its sign
  (`MylsCompare.ByKeyIff`); one list comes out in the order meant exactly when the differences that the sort's inner loop
  looks at keep the sign asked for (`MylsCompare.ThisListByKeyIff`). A 3 GiB file is sorted behind an empty one
  (`MylsCompare.LargeFileIsMisplaced`).
* `-r` does not always give the forward listing backwards. For one list of distinct entries it does exactly when each
  entry splits those listed before it into a part strictly before it and a part strictly behind it; where the
  differences keep their sign, that is exactly when no two entries agree in the attribute
  (`MylsCompare.ReverseByKeyIff`). For every order in which the entries can be read it does exactly when `cmp` is never 0
  on two of them and never goes round in a circle on three (`MylsCompare.ReverseAllOrdersIff`). Sizes of 0, 1.5 GiB and
  3 GiB, all different, go round in a circle (`MylsCompare.CircleIsNotReversed`).
* `list_content_dir` returns before its `chdir` when a directory cannot be opened, but the caller executes
  `chdir("..")` all the same. The current directory is restored exactly when all visible directories below can be read,
  or at the root (`MylsRestore.RestoredIff`, `MylsEnding.RestoredOnSomeStackIff`). Otherwise a readable directory can be
  reported as missing (`MylsRuns.SiblingIsLost`), another one can be listed under its header
  (`MylsRuns.WrongSiblingIsListed`), and a listing can go on without end (`MylsRuns.EndlessListing`). It ends at all
  exactly when it ends on a call stack of one frame more than there are directories (`MylsEnding.EndsIff`).
* `-A` is described as `-a` without "." and "..". It is, for a list of names, exactly when none starts with ".." and goes
  on after that (`MylsListing.AlmostAllListsIff`); "..x" is hidden (`MylsListing.AlmostAllHides`).
* `-R` is described as listing the subdirectories. A subdirectory is listed exactly when it is visible and its name does
  not start with ".." (`MylsHeaders.SubdirectoryListedIff`); with `-a`, "..x" is shown in its parent and never listed
  (`MylsHeaders.ShownButNotListed`).

## Model

| member | source | states |
|---|---|---|
| LockBasedQueue.PopFront | queue/src/lock_based_queue.rs:19-21 | splits a list into its first element and the rest; nothing comes only from the empty list |
| LockBasedQueue.LockBasedQueue.Enqueue | queue/src/lock_based_queue.rs:15-17 | the list grows by the value at its end |
| LockBasedQueue.LockBasedQueue.Dequeue | queue/src/lock_based_queue.rs:19-21 | list and result are those of taking the first element |
| QueueInvariant.InitInv | queue/src/lock_free_queue.rs:46-57 | a new queue, with its dummy node, meets the invariant for any number of threads |
| QueueInvariant.AllocateStep | queue/src/lock_free_queue.rs:60 | a new node is private to its thread; allocation keeps the invariant |
| QueueInvariant.NullNextIsLast | queue/src/lock_free_queue.rs:66-70 | a linked node has a null `next` exactly when it is the last of the chain |
| QueueInvariant.LinkStep | queue/src/lock_free_queue.rs:66-70 | a successful exchange of `next` extends the one acyclic chain at its end and keeps the invariant |
| QueueInvariant.TailStep | queue/src/lock_free_queue.rs:73-85 | moving `tail` off a node, helping or own, keeps it at one of the last two nodes and leaves it strictly past that node |
| QueueInvariant.ClaimStep | queue/src/lock_free_queue.rs:97-105 | a successful exchange of `head` claims the next value for one thread and keeps the invariant |
| QueueInvariant.TakeStep | queue/src/lock_free_queue.rs:111 | the value taken is there, and is the one linked right after the node that `head` left |
| QueueInvariant.NeverNull | queue/src/lock_free_queue.rs:59-115 | no thread follows, or stores in `head` or `tail`, a null or unallocated pointer |
| QueueInvariant.StepKeeps | queue/src/lock_free_queue.rs:59-115 | every step of every thread is safe, keeps the invariant, and changes shared memory only in the permitted ways |
| QueueInvariant.Reachable | queue/src/lock_free_queue.rs:59-115 | the invariant holds in every reachable state, for any number of threads and any interleaving |
| QueueInvariant.RunsExtend | queue/src/lock_free_queue.rs:59-115 | any thread can always take its next step: a run never stops for an unsafe access |
| AtomicQueue.LogIsSequential | queue/src/lock_based_queue.rs:15-21 | the effects of the atomic object, replayed by one thread on the lock-based queue, give the same responses and content |
| AtomicQueue.LogMatchesThreads | queue/src/lock_based_queue.rs:15-21 | each thread's effects are its calls in order and its responses in order, with at most one pending |
| AtomicQueue.LegalIsFifo | queue/src/lock_based_queue.rs:15-21 | in a legal history the values popped, followed by the content, are the values pushed |
| Linearizability.EmptyIsRight | queue/src/lock_free_queue.rs:91-95 | the test of line 93 finds null exactly when `head` has not moved since it was loaded and the queue is empty now |
| Linearizability.StepSimulates | queue/src/lock_free_queue.rs:59-115 | every step is one call, one effect, one return of the atomic queue, or nothing, with the same events seen by callers |
| Linearizability.RefinesAtomic | queue/src/lock_free_queue.rs:59-115 | every interleaving performs a run of the atomic queue with the same calls and returns in the same order |
| Linearizability.LinearizationGrows | queue/src/lock_free_queue.rs:59-115 | an effect of a prefix of a run stays in front of all later effects, so real-time order is kept |
| Linearizability.Linearizable | queue/src/lock_free_queue.rs:59-115 | every run has a legal sequential history on the lock-based queue that agrees with each thread's calls and responses and keeps real-time order |
| Linearizability.Fifo | queue/src/lock_free_queue.rs:66-71 | the values claimed, in the order of the head exchanges, are a prefix of the values linked, in the order of the next exchanges; the rest is the queue |
| Linearizability.PushedAreLinked | queue/src/lock_free_queue.rs:66-71 | the pushes of the linearization are exactly the successful next exchanges, in order |
| QueueRealTime.RealTime | queue/src/lock_free_queue.rs:59-115 | an operation that has returned before another one is called has its entry before the other's in the linearization |
| QueueRealTime.OperationSeen | queue/src/lock_free_queue.rs:59-115 | operation i of a thread in the linearization is its call number i, with the response that the caller got |
| QueueProducers.ProducerFifo | queue/src/lock_free_queue.rs:59-115 | the claimed values of one producer, in the order claimed, are the first ones that it passed to `enqueue`, in call order |
| QueueHistory.OnlyForward | queue/src/lock_free_queue.rs:64-85 | over any run links stay as they are, the chain only grows, and `head` and `tail` only move forward along it |
| QueueHistory.EndsAreClose | queue/src/lock_free_queue.rs:64-109 | `tail` is the last or the second-to-last node and `head` is at most one node past `tail` |
| QueueHistory.LoadsAgree | queue/src/lock_free_queue.rs:93-111 | the three loads of `p.next` in a successful `dequeue` find the same node, the one linked after `p` |
| QueueHistory.QueueIsInMemory | queue/src/lock_free_queue.rs:88-115 | following `next` from `head` to null gives exactly the abstract queue's values, after the node at `head` |
| QueueHistory.PathsAreUnique | queue/src/lock_free_queue.rs:34-40 | the path of `next` pointers from a node to null is unique |
| QueueHistory.StepConserves | queue/src/lock_free_queue.rs:97-114 | a step moves a value from its link to the queue, from there to one thread, from there out, or moves none |
| QueueHistory.DeliveredOnce | queue/src/lock_free_queue.rs:59-115 | in every reachable state, values linked = returned + claimed but not yet returned + in the queue, as multisets |
| QueueHistory.NothingOutstanding | queue/src/lock_free_queue.rs:107-114 | with no call in progress, no value is on its way out |
| QueueProgress.HelpingAdvancesTail | queue/src/lock_free_queue.rs:72-78 | a failed iteration of `enqueue` ends with `tail` strictly past the node it had loaded |
| QueueProgress.FailedClaimMeansHeadMoved | queue/src/lock_free_queue.rs:97-105 | a failed exchange of `head` means that `head` is past the node that was loaded |
| QueueProgress.RetriesAreOthersSuccesses | queue/src/lock_free_queue.rs:63-109 | over a whole run one thread's failed iterations are at most the links made, and the claims made |
| QueueProgress.StepBounded | queue/src/lock_free_queue.rs:63-109 | every step keeps the bound of nine steps a call and four for each failed iteration |
| QueueProgress.LockFree | queue/src/lock_free_queue.rs:59-115 | a run of n threads with c calls has at most (9 + 8 n) c steps, however it is scheduled |
| QueueDrops.DropsValueIff | queue/src/lock_free_queue.rs:111-112 | line 112 drops a node that still holds a value exactly when its claimer has yet to take it |
| QueueDrops.OneConsumerDropsNoValue | queue/src/lock_free_queue.rs:112 | with at most one dequeue in flight at a time, no run ever drops a node with a value at line 112 |
| QueueDrops.TwoConsumersCanDropValue | queue/src/lock_free_queue.rs:111-112 | for any two values there is a run of two consumers in which line 112 drops a value not yet taken |
| LockFreeQueue.EnqueueView | queue/src/lock_free_queue.rs:59-86 | after its own step in `enqueue` a thread is where the access puts it, and its calls, responses and retries are counted |
| LockFreeQueue.DequeueView | queue/src/lock_free_queue.rs:88-115 | the same for `dequeue` |
| LockFreeQueue.OtherView | queue/src/lock_free_queue.rs:59-115 | a step of another thread changes nothing of what a thread knows, and adds at most one node |
| LockFreeQueue.ReturnedOrDropped | queue/src/lock_free_queue.rs:30-43 | with no call in progress every value linked has either been returned or is in the queue that `Drop` walks |
| LockFreeQueue.LockFreeQueue.constructor | queue/src/lock_free_queue.rs:46-57 | the new object is the initial state of the transition system |
| LockFreeQueue.LockFreeQueue.ExchangeNext | queue/src/lock_free_queue.rs:66-70 | the object steps as the machine does; success or failure decides where the thread goes on |
| LockFreeQueue.LockFreeQueue.HelpTail | queue/src/lock_free_queue.rs:73-78 | the object steps as the machine does, and one failed iteration is counted |
| LockFreeQueue.LockFreeQueue.ExchangeHead | queue/src/lock_free_queue.rs:97-105 | the object steps as the machine does; a failure is counted |
| LockFreeQueue.LockFreeQueue.TakeValue | queue/src/lock_free_queue.rs:111 | the object steps as the machine does, and the value taken is what will be returned |
| LockFreeQueue.LockFreeQueue.Enqueue | queue/src/lock_free_queue.rs:59-86 | under any interference the loop ends; the call has been one call and one acknowledged operation of the atomic queue |
| LockFreeQueue.LockFreeQueue.Dequeue | queue/src/lock_free_queue.rs:88-115 | under any interference the loop ends; the call has been one operation of the atomic queue with the same result |
| LockFreeQueue.LockFreeQueue.Walk | queue/src/lock_free_queue.rs:32-40 | the loop visits the nodes of the path from `head` to null once each, in order, and meets exactly the queue's values |
| LockFreeQueue.LockFreeQueue.Drop | queue/src/lock_free_queue.rs:31-42 | on a queue not in use it ends, visits every node from `head` on once, and drops exactly the values in the queue |
| Sha256Constants.PrimesAreFirst | SHA256/src/main.rs:17-26 | the list of primes that the constants are tied to is exactly the 64 prime numbers up to 311, in order |
| Sha256Constants.KIsCubeRoot | SHA256/src/main.rs:17-26 | each round constant is the first 32 bits of the fraction of the cube root of the prime number of that position |
| Sha256Constants.H0IsSquareRoots | SHA256/src/main.rs:38 | the words of the initial hash value are the first 32 bits of the fractions of the square roots of the first eight primes |
| Sha256Bits.ChChooses | SHA256/src/main.rs:62 | the choice takes the bits of the second word where the first has a 1, and those of the third elsewhere |
| Sha256Bits.MajIsMajority | SHA256/src/main.rs:63 | if two of the words are equal the majority is that word |
| Sha256Bits.MajAgrees | SHA256/src/main.rs:63 | where two words agree in a bit, the majority agrees with them |
| Sha256Bits.BigSigma0Bit | SHA256/src/main.rs:64 | each bit is the exclusive-or of the bits 2, 13 and 22 places further on, round the end |
| Sha256Bits.BigSigma1Bit | SHA256/src/main.rs:65 | the same with 6, 11 and 25 |
| Sha256Bits.SmallSigma0Bit | SHA256/src/main.rs:54 | the same with 7 and 18, and the bit 3 further on if there is one |
| Sha256Bits.SmallSigma1Bit | SHA256/src/main.rs:55 | the same with 17 and 19, and the bit 10 further on if there is one |
| Sha256Bits.OnWords | SHA256/src/main.rs:54-65 | the functions on words are the functions on their bits |
| Sha256Equations.WordIsBigEndian | SHA256/src/main.rs:49-51 | a word of a block is 2^24, 2^16, 2^8 and 1 times its four bytes |
| Sha256Equations.CompressIsCompression | SHA256/src/main.rs:45-84 | there are schedule words and 65 tuples of working variables that meet the equations of section 6.2.2 of FIPS 180-4 modulo 2^32 and lead from the hash value to the next |
| Sha256Equations.PaddedIsPadded | SHA256/src/main.rs:86-123 | the padded message is the message, 0x80, fewest zeros to whole blocks, and the length in bits |
| Sha256Equations.DigestMeetsStandard | SHA256/src/main.rs:130-134 | from the initial hash value, block by block of the padded message, the equations lead to a hash value of which the digest gives the eight words in order |
| Fips180.PaddedLength | SHA256/src/main.rs:107-123 | the padded message fills whole blocks, with the number of zero bytes that the standard's congruence asks for |
| Fips180.ZeroBytes | SHA256/src/main.rs:107-123 | for whole bytes, the zero bits after the bit 1 are seven and a whole number of bytes |
| Fips180.HashPrefix | SHA256/src/main.rs:99-102 | the hash value after some blocks does not depend on the blocks that follow |
| Fips180.EncodeDecode | SHA256/src/main.rs:49-51 | encoding a big-endian number read from bytes gives the bytes back |
| Fips180.DecodeEncode | SHA256/src/main.rs:111-120 | decoding a big-endian encoding that is wide enough gives the number back |
| Sha256.ShiftRound | SHA256/src/main.rs:61-77 | the one-by-one shifts of the eight words are the simultaneous update of a round of the standard |
| Sha256.Sha256.MessageSchedule | SHA256/src/main.rs:47-57 | the array filled in place holds the recursive schedule words W_t |
| Sha256.Sha256.DealOne | SHA256/src/main.rs:45-84 | the state becomes the next hash value of section 6.2.2 of FIPS 180-4 for the block |
| Sha256.Sha256.DealBlock | SHA256/src/main.rs:86-106 | succeeds exactly on non-empty data; blocks hashed and pending bytes together are the data, with at least one byte pending |
| Sha256.Sha256.OneBlock | SHA256/src/main.rs:110-113 | pending bytes, 0x80, zeros, length, in one block |
| Sha256.Sha256.TwoBlocks | SHA256/src/main.rs:115-121 | pending bytes, 0x80, zeros, length, in two blocks, also for 64 pending bytes |
| Sha256.Sha256.DealRemain | SHA256/src/main.rs:108-128 | all blocks hashed, one after the other, are the padded message, and the result is the digest, if the length in bits fits 64 bits |
| Sha256.ToBeInMemory | SHA256/src/main.rs:124-127 | on a machine of either byte order the memory of a converted word is its big-endian encoding |
| Sha256.PaddedTail | SHA256/src/main.rs:86-123 | how the padding continues a message whose leading blocks are already hashed, in both branches |
| Sha256.DigestOf | SHA256/src/main.rs:130-134 | for every non-empty message below 2^61 bytes the length in bits does not overflow and the digest is that of FIPS 180-4; the empty message gives none |
| Sha256Padding.ZeroBitsIsLeast | SHA256/src/main.rs:107-123 | the number of zero bits solves the standard's congruence and is the least that does |
| Sha256Padding.PadUnpad | SHA256/src/main.rs:86-123 | the padding can be undone |
| Sha256Padding.PaddingIsInjective | SHA256/src/main.rs:86-123 | different messages give different block sequences |
| Sha256Rounds.UnroundRound | SHA256/src/main.rs:61-77 | the backward round undoes a round |
| Sha256Rounds.RoundUnround | SHA256/src/main.rs:61-77 | a round undoes the backward round |
| Sha256Rounds.RoundsAreBijective | SHA256/src/main.rs:61-77 | for any block the rounds are a bijection on working variables, with an explicit inverse |
| Sha256Rounds.RoundsAreInjective | SHA256/src/main.rs:61-77 | for one block, different working variables stay different through all 64 rounds |
| Sha256Rounds.WordBefore | SHA256/src/main.rs:53-57 | the schedule word before a run of sixteen is determined by the run |
| Sha256Rounds.SixteenWordsDetermineAll | SHA256/src/main.rs:49-57 | any sixteen consecutive schedule words determine the block |
| CounterSearch.CheckZeroIff | SHA256/src/main.rs:137-142 | a digest passes exactly when the first word of the hash value is 0 or 1 |
| CounterSearch.WorkersPartition | SHA256/src/main.rs:164-176 | every counter from the base up belongs to one worker and only one |
| CounterSearch.SourceIsCounter | SHA256/src/main.rs:169-173 | the bytes hashed are sixteen and give the 128-bit counter back, the most significant first |
| CounterSearch.PassesIff | SHA256/src/main.rs:172-175 | a counter passes exactly when the digest of its sixteen bytes does |
| CounterSearch.FirstTries | SHA256/src/main.rs:164-176 | the four workers start at 0xd72f345a and the three numbers after it, and go on in steps of four |
| CounterSearch.Worker | SHA256/src/main.rs:167-177 | within any number of iterations, the loop ends with the sixteen bytes of the first of its tries whose digest passes, and goes on exactly as long as none has |
| CounterSearch.FirstPassIsFirstHit | SHA256/src/main.rs:167-177 | before the counter wraps round, the first try that passes is the worker's least counter that passes |
| CounterSearch.SomePassIff | SHA256/src/main.rs:172-177 | if any try of a worker passes, one of its first 2^126 does, so after these it never ends |
| PoolSafety.InitInv | WebServerDemoInRust/src/lib.rs:53-69 | a new pool meets the invariant |
| PoolSafety.StepKeeps | WebServerDemoInRust/src/lib.rs:19-97 | every step keeps it: at most one holder of the lock, jobs before terminates, every message accounted for |
| PoolSafety.Reachable | WebServerDemoInRust/src/lib.rs:19-97 | the invariant holds in every reachable state of a pool of any size |
| PoolSafety.MessagesConserved | WebServerDemoInRust/src/lib.rs:20-26 | messages are received in the order sent, and sent = in the channel + in a worker's hands + done |
| PoolSafety.OneTerminateEach | WebServerDemoInRust/src/lib.rs:84-86 | terminates sent = those in the channel + those received, so unsent and queued terminates match the workers not yet told; all workers are told exactly when each is |
| PoolSafety.NoEarlyStop | WebServerDemoInRust/src/lib.rs:30-33 | once a worker is told to terminate, no job is left in the channel |
| PoolSafety.AllJobsDone | WebServerDemoInRust/src/lib.rs:81-97 | when `drop` has returned all workers have stopped, the channel is empty, and the jobs done are those submitted |
| PoolRuns.SubmittedInOrder | WebServerDemoInRust/src/lib.rs:71-77 | ahead of the terminates the channel has been given the jobs of the `execute` calls, in order |
| PoolRuns.DeliveredInOrder | WebServerDemoInRust/src/lib.rs:20-86 | at any time the channel has been sent the jobs in the order of submission, then the terminates, and has delivered the first ones of these in that order |
| PoolRuns.JobsConserved | WebServerDemoInRust/src/lib.rs:19-77 | in every run each job has been submitted as often as it is queued, in a worker's hands and done together; delivery is in the order of submission, terminates last |
| PoolRuns.DroppedPoolIsDone | WebServerDemoInRust/src/lib.rs:71-97 | in every run in which `drop` has returned, each submitted job has run exactly once and every worker has stopped |
| PoolShutdown.SomeoneCanWork | WebServerDemoInRust/src/lib.rs:20 | if a worker has or could receive a message, some worker can take a step |
| PoolShutdown.NoDeadlock | WebServerDemoInRust/src/lib.rs:80-97 | from the start of `drop` until it returns, some step is possible |
| PoolShutdown.StepLeavesLess | WebServerDemoInRust/src/lib.rs:80-97 | each step but a submission decreases a measure of what is left to do |
| PoolShutdown.ShutdownEnds | WebServerDemoInRust/src/lib.rs:80-97 | every schedule of a shutdown is finite, with an explicit bound, and can only end with `drop` having returned |
| ThreadPool.ThreadPool.constructor | WebServerDemoInRust/src/lib.rs:53-69 | the new object is the initial state of the transition system |
| ThreadPool.ThreadPool.Execute | WebServerDemoInRust/src/lib.rs:71-77 | submits the job as the transition system does |
| ThreadPool.ThreadPool.WorkerStep | WebServerDemoInRust/src/lib.rs:19-36 | the worker's loop steps as the transition system does |
| ThreadPool.ThreadPool.JoinWorker | WebServerDemoInRust/src/lib.rs:93-95 | under any schedule of the workers the join returns, and no job is lost |
| ThreadPool.ThreadPool.Drop | WebServerDemoInRust/src/lib.rs:81-97 | under any schedule of the workers it returns, with all workers stopped and joined and each submitted job run once |
| MylsOrder.InsertAt | myls/myls.c:224-227 | an entry goes behind the last one that may stand before it |
| MylsOrder.InsertInPlace | myls/myls.c:215-219 | one round of the outer loop inserts an entry into the sorted prefix and leaves the rest alone |
| MylsOrder.Order | myls/myls.c:209-228 | in either direction the array becomes the insertion sort of what it held |
| MylsStability.SortIsStable | myls/myls.c:209-228 | for a comparison that is an order with ties the sort is sorted, a permutation, and keeps tied entries in order |
| MylsStability.StableSortIsUnique | myls/myls.c:209-228 | a list is a stable sort of the input exactly when it is the one computed |
| MylsReverse.SortFlipped | myls/myls.c:213-227 | sorting in the other direction is sorting the reversed list and reversing the result |
| MylsReverse.FlippedIsBackwardsIff | myls/myls.c:213-227 | on distinct entries the other direction is the sorted list backwards exactly when no two entries tie |
| MylsWalks.SortSameIff | myls/myls.c:213-227 | two comparisons sort a list of distinct entries alike exactly when they agree on all pairs that the inner loop compares |
| MylsWalks.AllOrdersSameIff | myls/myls.c:213-227 | they sort all orders of the entries alike exactly when they agree on all pairs |
| MylsBackwards.SortBackwardsIff | myls/myls.c:213-227 | for any comparison, `-r` gives one list backwards exactly when each entry splits those sorted before it |
| MylsBackwards.AllBackwardsIff | myls/myls.c:213-227 | for any comparison, `-r` gives all orders of the entries backwards exactly when no two compare as 0 and no three go round in a circle |
| MylsCompare.StrCmpTransitive | myls/myls.c:180 | the comparison of names is transitive |
| MylsCompare.StrCmpZero | myls/myls.c:180 | it is zero only for equal names |
| MylsCompare.StrCmpIsDictionary | myls/myls.c:180 | the comparison of names is negative exactly when the first string ends or is smaller at the first place where they differ |
| MylsCompare.ByName | myls/myls.c:209-228 | by name both directions are stable sorts for all names under `strcmp`, and `-r` gives exactly the forward list backwards |
| MylsCompare.ByNameIsDictionary | myls/myls.c:209-228 | a list by name is in the order of a dictionary, with `-r` in the opposite one |
| MylsCompare.ToIntIs | myls/myls.c:189-192 | a 64-bit difference returned as an `int` keeps its lowest 32 bits, read as a signed number |
| MylsCompare.SignKeptIff | myls/myls.c:188-192 | which 64-bit differences keep their sign when returned as an `int` |
| MylsCompare.ByKey | myls/myls.c:188-228 | on entries whose differences keep their sign, a listing by time or size is the stable sort by that attribute, in both directions |
| MylsCompare.ByKeyIff | myls/myls.c:188-228 | every list drawn from given entries, and for distinct ones every order of them, comes out in the order meant exactly when all their differences keep their sign |
| MylsCompare.ThisListByKeyIff | myls/myls.c:188-228 | one list of distinct entries comes out in the order meant exactly when the differences on the walks of the inner loop keep the sign asked for |
| MylsCompare.LargeFileIsMisplaced | myls/myls.c:192 | a file of 3 GiB and an empty one are listed in the wrong order |
| MylsCompare.ReverseByKeyIff | myls/myls.c:188-228 | `-r` gives a list of distinct entries backwards exactly when each splits those listed before it; if all differences keep their sign, exactly when no two entries agree in the attribute |
| MylsCompare.ReverseAllOrdersIff | myls/myls.c:178-228 | `-r` gives every order of the entries backwards exactly when `cmp` is never 0 on two and never goes round in a circle on three |
| MylsCompare.CircleIsNotReversed | myls/myls.c:192-227 | sizes 0, 1.5 GiB and 3 GiB are listed b, a, c and with `-r` a, b, c |
| MylsListing.TotalBlocks | myls/myls.c:252-267 | the loop over the unsorted names adds up, as an `int`, the blocks of the visible ones |
| MylsListing.ListSingle | myls/myls.c:410-420 | an entry is printed exactly when it is visible under `-a` and `-A` |
| MylsListing.Info | myls/myls.c:577-592 | the entries printed are the visible ones, in the order of the array |
| MylsListing.ListFile | myls/myls.c:234-296 | the listing is the sorted visible entries under the total of the blocks of exactly the entries printed |
| MylsListing.SortKeepsBlocks | myls/myls.c:250-294 | the block sum of the visible entries is the same before and after sorting, whatever the comparison |
| MylsListing.ListingIsSorted | myls/myls.c:273-294 | each visible entry is printed as often as it occurs and no other is; hidden entries do not disturb the order |
| MylsListing.AlmostAllIff | myls/myls.c:413-420 | `-A` hides just "." and ".." among names exactly as far as none starts with ".." and goes on |
| MylsListing.AlmostAllListsIff | myls/myls.c:258-265 | a listing with `-A` shows all but "." and ".." exactly when no name starts with ".." and goes on |
| MylsListing.AlmostAllHides | myls/myls.c:413-420 | "..x" is hidden by `-A` |
| MylsOptions.AllShown | myls/myls.c:413-420 | with `-a` every name is shown, "." and ".." too |
| MylsOptions.DotNamesHidden | myls/myls.c:413-420 | without `-a` and `-A` exactly the names that start with a dot are hidden |
| MylsOptions.TotalPrinted | myls/myls.c:250-271 | a total is printed for a directory in the long format only, and is the sum of the blocks of the entries shown |
| MylsOptions.OneOrder | myls/myls.c:274-292 | every combination of options asks for exactly one of the five orders |
| MylsOptions.ListedBySize | myls/myls.c:274-275 | with `-S` the largest entries stand first, or last with `-r`, whatever other options say |
| MylsOptions.ListedByMtime | myls/myls.c:276-282 | with `-t` alone the entry changed last stands first, or last with `-r` |
| MylsOptions.ListedByCtime | myls/myls.c:276-285 | with `-tc`, or `-c` without `-l`, the order is that of the changes of attributes, also if `-u` is given |
| MylsOptions.ListedByAtime | myls/myls.c:276-287 | with `-tu`, or `-u` without `-l`, the order is that of the last accesses |
| MylsOptions.ListedByName | myls/myls.c:283-292 | in all other cases the entries shown are in the order of a dictionary, or in the opposite one |
| MylsSections.StatsAreOfEntries | myls/myls.c:185-186 | the attributes of a name in a directory are those of the file of that name, of the directory for ".", and of the one above for ".." |
| MylsSections.SectionShows | myls/myls.c:340-348 | under a header exactly the visible entries of the directory are shown, with a total in the long format |
| MylsSections.FilesByMtime | myls/myls.c:276-282 | with `-t`, of two files of the directory listed the one changed later stands first under its header |
| MylsSections.GoDots | myls/myls.c:139-141 | "./", listed when no directory is given, is the current directory, and ".." the one above it |
| MylsFiles.GoPlain | myls/myls.c:330-336 | a plain name denotes the entry of that name in the current directory |
| MylsFiles.GoChild | myls/myls.c:361-366 | the printed prefix with a name appended denotes the subdirectory of that name |
| MylsFiles.SplitJoin | myls/myls.c:361-366 | appending a name to a prefix that ends in a slash adds one path component |
| MylsTraversal.Lister.ListContentDir | myls/myls.c:319-382 | current directory and output after the call are those of the recursive specification, for every tree |
| MylsTraversal.Lister.Descend | myls/myls.c:368-381 | the last loop, with its two skip tests and its `chdir("..")`, does what the specification of it says |
| MylsTraversal.Lister.ListDir | myls/myls.c:301-311 | each directory given is listed from the starting directory, which is current again at the end |
| MylsHeaders.VisitReadable | myls/myls.c:319-382 | when all visible directories can be read the call ends, prints them in preorder, and ends in the directory it opened |
| MylsHeaders.HeadersDenote | myls/myls.c:335-379 | every header printed denotes, from the starting directory, the directory listed under it |
| MylsHeaders.ListedOnce | myls/myls.c:351-381 | a directory is listed once if it can be reached through directories that are not skipped, otherwise never |
| MylsHeaders.DescendsIff | myls/myls.c:368-376 | `-R` descends into a subdirectory exactly when it is visible and its name does not start with ".." |
| MylsHeaders.SubdirectoryListedIff | myls/myls.c:351-381 | a subdirectory is listed, once, exactly when it is visible and its name does not start with ".." |
| MylsHeaders.ShownButNotListed | myls/myls.c:370-372 | with `-aR` the directory "..x" is shown and never listed |
| MylsRestore.VisitEndsAbove | myls/myls.c:319-382 | for every tree, a call ends at or above the directory it opened, and exactly there if nothing failed to open or it is the root |
| MylsRestore.DescendEndsAbove | myls/myls.c:379-380 | call and `chdir("..")` end at or above the current directory, and there exactly if nothing failed to open or it is the root |
| MylsRestore.OpenedIsReadable | myls/myls.c:330-333 | if no directory failed to open, all visible ones can be read |
| MylsRestore.ListsAllIff | myls/myls.c:319-382 | a listing that ends prints the preorder of the visible directories exactly when all of them can be read |
| MylsRestore.RestoredIff | myls/myls.c:330-380 | a call that ends, followed by `chdir("..")`, restores the current directory exactly when all below can be read, or at the root |
| MylsEnding.EndsIff | myls/myls.c:319-382 | on any tree a call ends on some call stack exactly when it ends on one frame more than there are directories |
| MylsEnding.NeedsFewFrames | myls/myls.c:379 | a listing that ends never needs more frames than there are directories |
| MylsEnding.OnlyCwdMatters | myls/myls.c:319-382 | whether and where a call ends depends on the current directory and the name alone |
| MylsEnding.ListsAllOnSomeStackIff | myls/myls.c:319-382 | whether or not it ends: a call prints the preorder on some stack, and then on that bound, exactly when all visible directories can be read |
| MylsEnding.RestoredOnSomeStackIff | myls/myls.c:330-380 | whether or not it ends: the current directory comes back on some stack exactly when all below can be read, or at the root when the call ends |
| MylsRuns.WholeRun | myls/myls.c:301-311 | a whole run prints the preorder of each directory given, every header denoting the directory listed under it |
| MylsParameters.RunIsEach | myls/myls.c:301-311 | a run over any parameters ends exactly when each alone would, and prints what each alone would print, in order |
| MylsParameters.ParameterPrinted | myls/myls.c:301-333 | whatever the other parameters are, one that can be read gives the preorder of its directory and one that cannot be opened its error line, in its place |
| MylsParameters.VisitAdds | myls/myls.c:319-382 | what a call prints does not depend on what was printed before |
| MylsRuns.SiblingIsLost | myls/myls.c:330-380 | after a directory that cannot be read, a readable one next to it is reported as missing and not listed |
| MylsRuns.WrongSiblingIsListed | myls/myls.c:330-380 | if the root holds a directory of that name too, it is listed under the header of the other one |
| MylsRuns.OpenedHeadersDenote | myls/myls.c:335-379 | on every tree, as long as all directories could be opened every header denotes the directory listed under it |
| MylsRuns.EndlessListing | myls/myls.c:330-380 | on a small finite tree with a directory that cannot be read, no call stack is large enough |

## Left out

* Memory orders weaker than sequential consistency (Acquire, Release and Relaxed in the lock-free queue).
* Raw pointer casts, the allocator, and what a destructor of the payload does when a node is dropped; a dropped node keeps
  its fields in the model, as its memory is never given back.
* Poisoned mutexes, jobs that panic, printing, and the creation of operating system threads.
* A second use of one `Sha256` object, and messages of 2^61 bytes and more.
- CounterSearch.Worker: whether a worker has a try that passes is not decided; the counter wraps round at 2^128 as in a
  build without overflow checks.
* The channel, the timing and the output of the search's `main`.
* The separators, colours, permission strings, option letters, formatting and user names of myls, and its fixed buffer
  sizes: names, paths and entry counts are taken to fit.
* Symbolic links on a path given to myls, changes of the file tree during a listing, and directories that open but cannot
  be entered.
- MylsTraversal.Lister.ListContentDir: recursion takes the number of call frames that fit as a parameter, because on some
  trees it does not end; a call that exhausts them returns false, and nothing is said of the state then.
* `strcmp` is modelled by the difference of the first differing characters; only its sign is used.
* The network demos, the crawlers, the benchmarks and the web server's `main`: they would add I/O over libraries and no
  property of this kind.
