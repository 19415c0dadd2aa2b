/** The bounded circulation of buffers between producers and consumers: two queues, each with a
    mutex and a condition variable on which both ends of the queue wait. Any number of threads
    interleave; the critical sections are steps, and so are the notifications after them. */
module BufferQueue {

  type Buffer = nat
  type Thread = nat

  datatype Op = Queue(b: Buffer) | Acquire | Consume | TimedConsume | Release(b: Buffer)

  // fillM and fillBuffCond, or emptyM and emptyBuffCond.
  datatype Side = Fill | Empty

  // Testing: at the predicate of the wait, with the mutex. MustNotify: before notify_all.
  datatype Phase = Idle | Testing(op: Op) | Parked(op: Op) | MustNotify(side: Side)

  datatype Holder = Producer(t: Thread) | Consumer(t: Thread)

  datatype State = State(
    maxDepth: nat,
    consumerQueue: seq<Buffer>,
    producerQueue: seq<Buffer>,
    threads: map<Thread, Phase>,
    holder: map<Buffer, Holder>,   // who has acquired or consumed a buffer and not passed it on
    queued: seq<Buffer>,           // every buffer queued, in order
    consumed: seq<Buffer>,         // every buffer consumed, in order
    released: seq<Buffer>,         // every buffer released, in order
    acquired: seq<Buffer>)         // every buffer acquired, in order

  function SideOf(op: Op): Side {
    match op
    case Queue(_) => Fill
    case Consume => Fill
    case TimedConsume => Fill
    case Acquire => Empty
    case Release(_) => Empty
  }

  // The predicate of the wait.
  predicate MayGo(s: State, op: Op) {
    match op
    case Queue(_) => |s.consumerQueue| < s.maxDepth
    case Consume => s.consumerQueue != []
    case TimedConsume => s.consumerQueue != []
    case Acquire => s.producerQueue != []
    case Release(_) => |s.producerQueue| < s.maxDepth
  }

  // The critical section behind the wait.
  function Perform(s: State, t: Thread, op: Op): State
    requires MayGo(s, op)
  {
    var done := s.threads[t := MustNotify(SideOf(op))];
    match op
    case Queue(b) =>
      s.(threads := done, consumerQueue := s.consumerQueue + [b], holder := s.holder - {b}, queued := s.queued + [b])
    case Acquire =>
      s.(threads := done, producerQueue := s.producerQueue[1..], holder := s.holder[s.producerQueue[0] := Producer(t)],
         acquired := s.acquired + [s.producerQueue[0]])
    case Release(b) =>
      s.(threads := done, producerQueue := s.producerQueue + [b], holder := s.holder - {b},
         released := s.released + [b])
    case _ =>
      s.(threads := done, consumerQueue := s.consumerQueue[1..], holder := s.holder[s.consumerQueue[0] := Consumer(t)],
         consumed := s.consumed + [s.consumerQueue[0]])
  }

  function Woken(p: Phase, side: Side): Phase {
    if p.Parked? && SideOf(p.op) == side then Testing(p.op) else p
  }

  datatype Event =
    | Call(t: Thread, op: Op)
    | Test(t: Thread)
    | NotifyAll(t: Thread)
    | Wake(t: Thread)
    | TimeOut(t: Thread)

  predicate Enabled(s: State, e: Event) {
    e.t in s.threads &&
    var p := s.threads[e.t];
    match e
    case Call(_, _) => p.Idle?
    case Test(_) => p.Testing?
    case NotifyAll(_) => p.MustNotify?
    case Wake(_) => p.Parked?
    case TimeOut(_) => p.Parked? && p.op.TimedConsume?
  }

  function Next(s: State, e: Event): State
    requires Enabled(s, e)
  {
    var p := s.threads[e.t];
    match e
    case Call(t, op) => s.(threads := s.threads[t := Testing(op)])
    case Test(t) => if MayGo(s, p.op) then Perform(s, t, p.op) else s.(threads := s.threads[t := Parked(p.op)])
    case NotifyAll(t) =>
      s.(threads := map u | u in s.threads :: if u == t then Idle else Woken(s.threads[u], p.side))
    case Wake(t) => s.(threads := s.threads[t := Testing(p.op)])
    case TimeOut(t) => if MayGo(s, p.op) then Perform(s, t, p.op) else s.(threads := s.threads[t := Idle])
  }

  predicate IsRun(s: State, es: seq<Event>)
    decreases |es|
  {
    es == [] || (Enabled(s, es[0]) && IsRun(Next(s, es[0]), es[1..]))
  }

  function After(s: State, es: seq<Event>): State
    requires IsRun(s, es)
    decreases |es|
  {
    if es == [] then s else After(Next(s, es[0]), es[1..])
  }

  /* ---- order, bound and wake-up, for any use of the queues ---- */

  predicate InOrder(s: State) {
    && s.consumed + s.consumerQueue == s.queued
    && s.acquired + s.producerQueue == s.released
    && |s.consumerQueue| <= s.maxDepth && |s.producerQueue| <= s.maxDepth
  }

  ghost predicate NotifyDue(s: State, side: Side) {
    exists u :: u in s.threads && s.threads[u] == MustNotify(side)
  }

  // Whoever sleeps although it may go on is about to be woken.
  ghost predicate NoLostWakeUp(s: State) {
    forall t | t in s.threads && s.threads[t].Parked? && MayGo(s, s.threads[t].op) ::
      NotifyDue(s, SideOf(s.threads[t].op))
  }

  lemma StepKeepsOrder(s: State, e: Event)
    requires InOrder(s) && Enabled(s, e)
    ensures InOrder(Next(s, e))
  {
  }

  lemma StepKeepsWakeUp(s: State, e: Event)
    requires NoLostWakeUp(s) && Enabled(s, e)
    ensures NoLostWakeUp(Next(s, e))
  {
    var n, p := Next(s, e), s.threads[e.t];
    forall t | t in n.threads && n.threads[t].Parked? && MayGo(n, n.threads[t].op)
      ensures NotifyDue(n, SideOf(n.threads[t].op))
    {
      var side := SideOf(n.threads[t].op);
      if n.threads[e.t] == MustNotify(side) {
      } else {
        assert s.threads[t] == n.threads[t] && MayGo(s, s.threads[t].op);
        var u :| u in s.threads && s.threads[u] == MustNotify(side);
        assert n.threads[u] == MustNotify(side);
      }
    }
  }

  /** Consumed buffers followed by the queue are the buffers queued, in order, and acquired ones
      followed by the other queue those released; no queue outgrows the depth; and a thread that
      sleeps although its condition holds has a notify_all to come. */
  lemma {:induction false} RunKeepsQueue(s: State, es: seq<Event>)
    requires InOrder(s) && NoLostWakeUp(s) && IsRun(s, es)
    ensures InOrder(After(s, es)) && NoLostWakeUp(After(s, es))
    decreases |es|
  {
    if es != [] {
      StepKeepsOrder(s, es[0]);
      StepKeepsWakeUp(s, es[0]);
      RunKeepsQueue(Next(s, es[0]), es[1..]);
    }
  }

  /** A notification wakes every thread that sleeps at its side, and changes nothing else. */
  lemma NotifyAllWakes(s: State, t: Thread)
    requires Enabled(s, NotifyAll(t))
    ensures var n := Next(s, NotifyAll(t));
            && n == s.(threads := n.threads) && n.threads.Keys == s.threads.Keys && n.threads[t] == Idle
            && forall u | u in s.threads && u != t ::
                 n.threads[u] == if s.threads[u].Parked? && SideOf(s.threads[u].op) == s.threads[t].side
                                 then Testing(s.threads[u].op) else s.threads[u]
  {
  }

  /** A timed `consume` whose time is over still takes the next buffer if there is one, and otherwise
      changes nothing. */
  lemma TimedOutConsume(s: State, t: Thread)
    requires Enabled(s, TimeOut(t))
    ensures var n := Next(s, TimeOut(t));
            if s.consumerQueue == [] then
              n == s.(threads := s.threads[t := Idle])
            else
              && n.consumed == s.consumed + [s.consumerQueue[0]] && n.consumerQueue == s.consumerQueue[1..]
              && n.producerQueue == s.producerQueue && n.queued == s.queued
  {
  }

  /* ---- circulation, when the clients keep to acquire, queue, consume, release ---- */

  predicate HoldsNothing(s: State, t: Thread) {
    forall b | b in s.holder :: s.holder[b].t != t
  }

  // A thread passes on the buffer that it holds before it takes another.
  predicate MayCall(s: State, t: Thread, op: Op) {
    match op
    case Queue(b) => b in s.holder && s.holder[b] == Producer(t)
    case Release(b) => b in s.holder && s.holder[b] == Consumer(t)
    case _ => HoldsNothing(s, t)
  }

  predicate Behaves(s: State, e: Event) {
    e.Call? ==> MayCall(s, e.t, e.op)
  }

  /** Every buffer is in exactly one of the four places: a queue, or held by a producer or a
      consumer. And only takers ever sleep. */
  predicate Circulates(s: State, all: set<Buffer>) {
    && multiset(s.consumerQueue) + multiset(s.producerQueue) + multiset(s.holder.Keys) == multiset(all)
    && |all| <= s.maxDepth
    && (forall b | b in s.holder :: s.holder[b].t in s.threads)
    && (forall t | t in s.threads && (s.threads[t].Testing? || s.threads[t].Parked?) :: MayCall(s, t, s.threads[t].op))
    && (forall t | t in s.threads && s.threads[t].Parked? :: !s.threads[t].op.Queue? && !s.threads[t].op.Release?)
  }

  lemma HeldLeavesRoom(s: State, all: set<Buffer>, b: Buffer)
    requires Circulates(s, all) && b in s.holder
    ensures |s.consumerQueue| < s.maxDepth && |s.producerQueue| < s.maxDepth
    ensures b !in s.consumerQueue && b !in s.producerQueue
  {
    var places := multiset(s.consumerQueue) + multiset(s.producerQueue) + multiset(s.holder.Keys);
    assert |places| == |s.consumerQueue| + |s.producerQueue| + |s.holder.Keys|;
    assert |s.holder.Keys| > 0;
    assert multiset(all)[b] <= 1;
  }

  // A buffer that moves between two places leaves the total as it is.
  lemma SameTotal(other: multiset<Buffer>,
                  a: multiset<Buffer>, b: multiset<Buffer>, c: multiset<Buffer>, d: multiset<Buffer>)
    requires a + b == c + d
    ensures other + a + b == other + c + d && a + other + b == c + other + d
  {
    assert other + a + b == other + (a + b);
    assert other + c + d == other + (c + d);
    assert a + other + b == other + (a + b);
    assert c + other + d == other + (c + d);
  }

  lemma GivingKeepsPlaces(s: State, q: seq<Buffer>, b: Buffer)
    requires b in s.holder
    ensures multiset(q + [b]) + multiset((s.holder - {b}).Keys) == multiset(q) + multiset(s.holder.Keys)
  {
    assert multiset(q + [b]) == multiset(q) + multiset{b};
    assert (s.holder - {b}).Keys == s.holder.Keys - {b};
  }

  lemma TakingKeepsPlaces(s: State, q: seq<Buffer>, h: Holder)
    requires q != [] && q[0] !in s.holder
    ensures multiset(q[1..]) + multiset(s.holder[q[0] := h].Keys) == multiset(q) + multiset(s.holder.Keys)
  {
    assert q == [q[0]] + q[1..];
    assert s.holder[q[0] := h].Keys == s.holder.Keys + {q[0]};
  }

  lemma QueuedIsNotHeld(s: State, all: set<Buffer>, b: Buffer)
    requires Circulates(s, all) && (b in s.consumerQueue || b in s.producerQueue)
    ensures b !in s.holder
  {
    if b in s.holder {
      HeldLeavesRoom(s, all, b);
    }
  }

  lemma PerformKeepsPlaces(s: State, t: Thread, op: Op, all: set<Buffer>)
    requires Circulates(s, all) && MayGo(s, op) && MayCall(s, t, op)
    ensures var n := Perform(s, t, op);
            multiset(n.consumerQueue) + multiset(n.producerQueue) + multiset(n.holder.Keys) == multiset(all)
  {
    var n := Perform(s, t, op);
    match op {
      case Queue(b) => GivingKeepsPlaces(s, s.consumerQueue, b);
      case Release(b) => GivingKeepsPlaces(s, s.producerQueue, b);
      case Acquire =>
        QueuedIsNotHeld(s, all, s.producerQueue[0]);
        TakingKeepsPlaces(s, s.producerQueue, Producer(t));
      case _ =>
        QueuedIsNotHeld(s, all, s.consumerQueue[0]);
        TakingKeepsPlaces(s, s.consumerQueue, Consumer(t));
    }
    if SideOf(op) == Fill {
      SameTotal(multiset(s.producerQueue), multiset(n.consumerQueue), multiset(n.holder.Keys),
                multiset(s.consumerQueue), multiset(s.holder.Keys));
    } else {
      SameTotal(multiset(s.consumerQueue), multiset(n.producerQueue), multiset(n.holder.Keys),
                multiset(s.producerQueue), multiset(s.holder.Keys));
    }
  }

  // What one thread does leaves the others entitled to what they are about to do.
  lemma OthersMayStillCall(s: State, t: Thread, op: Op, u: Thread, other: Op, all: set<Buffer>)
    requires Circulates(s, all) && MayGo(s, op) && MayCall(s, t, op)
    requires u != t && MayCall(s, u, other)
    ensures MayCall(Perform(s, t, op), u, other)
  {
    match op {
      case Acquire => QueuedIsNotHeld(s, all, s.producerQueue[0]);
      case Consume => QueuedIsNotHeld(s, all, s.consumerQueue[0]);
      case TimedConsume => QueuedIsNotHeld(s, all, s.consumerQueue[0]);
      case _ =>
    }
  }

  lemma PerformKeepsCirculation(s: State, t: Thread, op: Op, all: set<Buffer>)
    requires Circulates(s, all) && t in s.threads && MayGo(s, op) && MayCall(s, t, op)
    ensures Circulates(Perform(s, t, op), all)
  {
    var n := Perform(s, t, op);
    PerformKeepsPlaces(s, t, op, all);
    forall u | u in n.threads && (n.threads[u].Testing? || n.threads[u].Parked?)
      ensures MayCall(n, u, n.threads[u].op)
    {
      OthersMayStillCall(s, t, op, u, s.threads[u].op, all);
    }
  }

  lemma StepKeepsCirculation(s: State, e: Event, all: set<Buffer>)
    requires Circulates(s, all) && Enabled(s, e) && Behaves(s, e)
    ensures Circulates(Next(s, e), all)
  {
    var p := s.threads[e.t];
    match e {
      case Test(t) =>
        if MayGo(s, p.op) {
          PerformKeepsCirculation(s, t, p.op, all);
        } else {
          GiversNeverWait(s, t, all);
        }
      case TimeOut(t) =>
        if MayGo(s, p.op) {
          PerformKeepsCirculation(s, t, p.op, all);
        }
      case _ => QuietStepKeepsCirculation(s, e, all);
    }
  }

  lemma QuietStepKeepsCirculation(s: State, e: Event, all: set<Buffer>)
    requires Circulates(s, all) && Enabled(s, e) && Behaves(s, e) && !e.Test? && !e.TimeOut?
    ensures Circulates(Next(s, e), all)
  {
  }

  /** Neither `queue` nor `release` ever finds its queue full. */
  lemma GiversNeverWait(s: State, t: Thread, all: set<Buffer>)
    requires Circulates(s, all) && t in s.threads && s.threads[t].Testing?
    ensures s.threads[t].op.Queue? || s.threads[t].op.Release? ==> MayGo(s, s.threads[t].op)
  {
    var op := s.threads[t].op;
    if op.Queue? || op.Release? {
      HeldLeavesRoom(s, all, op.b);
    }
  }

  predicate IsBehavedRun(s: State, es: seq<Event>)
    requires IsRun(s, es)
    decreases |es|
  {
    es == [] || (Behaves(s, es[0]) && IsBehavedRun(Next(s, es[0]), es[1..]))
  }

  /** No more buffers than the depth, and clients that pass on what they hold: then in every state
      of every run each buffer is in exactly one place, and only takers sleep. */
  lemma {:induction false} RunKeepsCirculation(s: State, es: seq<Event>, all: set<Buffer>)
    requires Circulates(s, all) && IsRun(s, es) && IsBehavedRun(s, es)
    ensures Circulates(After(s, es), all)
    decreases |es|
  {
    if es != [] {
      StepKeepsCirculation(s, es[0], all);
      RunKeepsCirculation(Next(s, es[0]), es[1..], all);
    }
  }

  predicate Sleeps(s: State, t: Thread) {
    t in s.threads && s.threads[t].Parked?
  }

  lemma HolderIsAwake(s: State, all: set<Buffer>, b: Buffer)
    requires Circulates(s, all) && b in s.holder
    ensures !Sleeps(s, s.holder[b].t)
  {
    var t := s.holder[b].t;
    assert !HoldsNothing(s, t);
  }

  lemma SomeQueueHasBuffers(s: State, all: set<Buffer>)
    requires Circulates(s, all) && all != {} && (forall b :: b !in s.holder)
    ensures s.consumerQueue != [] || s.producerQueue != []
  {
    var b :| b in all;
    assert multiset(all)[b] == multiset(s.consumerQueue)[b] + multiset(s.producerQueue)[b] + multiset(s.holder.Keys)[b];
    assert multiset(all)[b] == 1 && multiset(s.holder.Keys)[b] == 0;
  }

  // The thread is entitled to the operation and finds its condition true; if it sleeps, it sleeps on
  // this very operation and is about to be woken.
  ghost predicate CanPass(s: State, t: Thread, op: Op) {
    && t in s.threads && MayCall(s, t, op) && MayGo(s, op)
    && (Sleeps(s, t) ==> s.threads[t].op == op && NotifyDue(s, SideOf(op)))
  }

  /** With at least one buffer, one client that acquires and one that consumes, some thread can
      always pass some operation. */
  lemma SomeOperationIsOpen(s: State, all: set<Buffer>, producer: Thread, consumer: Thread)
    requires Circulates(s, all) && NoLostWakeUp(s) && all != {}
    requires producer in s.threads && (Sleeps(s, producer) ==> s.threads[producer].op.Acquire?)
    requires consumer in s.threads && (Sleeps(s, consumer) ==> !s.threads[consumer].op.Acquire?)
    ensures exists t, op :: CanPass(s, t, op)
  {
    if b :| b in s.holder {
      HeldLeavesRoom(s, all, b);
      HolderIsAwake(s, all, b);
      assert CanPass(s, s.holder[b].t, if s.holder[b].Producer? then Queue(b) else Release(b));
    } else {
      SomeQueueHasBuffers(s, all);
      if s.producerQueue != [] {
        assert CanPass(s, producer, Acquire);
      } else {
        assert CanPass(s, consumer, if Sleeps(s, consumer) then s.threads[consumer].op else Consume);
      }
    }
  }

  // The thread is awake and has a buffer to pass on or a notification to send.
  predicate HasWork(s: State, t: Thread) {
    && t in s.threads && !Sleeps(s, t)
    && (s.threads[t].MustNotify? || !HoldsNothing(s, t))
  }

  /** So the circulation never comes to a stop with a producer asleep at one end and a consumer at
      the other: somebody holds a buffer or is about to wake them. */
  lemma NeverStuck(s: State, all: set<Buffer>, producer: Thread, consumer: Thread)
    requires Circulates(s, all) && NoLostWakeUp(s) && all != {}
    requires Sleeps(s, producer) && s.threads[producer].op.Acquire?
    requires Sleeps(s, consumer) && !s.threads[consumer].op.Acquire?
    ensures exists t :: HasWork(s, t)
  {
    if b :| b in s.holder {
      HolderIsAwake(s, all, b);
      assert HasWork(s, s.holder[b].t);
    } else {
      SomeQueueHasBuffers(s, all);
      var waiting := if s.producerQueue != [] then producer else consumer;
      assert MayGo(s, s.threads[waiting].op);
      var u :| u in s.threads && s.threads[u] == MustNotify(SideOf(s.threads[waiting].op));
      assert HasWork(s, u);
    }
  }

  // A new queue, whose buffers are all with the thread that is about to release them into it.
  function Start(maxDepth: nat, threads: set<Thread>, all: set<Buffer>, loader: Thread): State {
    State(maxDepth, [], [], map t | t in threads :: Idle, map b | b in all :: Consumer(loader), [], [], [], [])
  }

  /** Whatever well-behaved clients do with a new queue and at most as many buffers as its depth:
      buffers circulate, in order, and no wake-up is lost. */
  lemma NewQueueCirculates(maxDepth: nat, threads: set<Thread>, all: set<Buffer>, loader: Thread, es: seq<Event>)
    requires |all| <= maxDepth && loader in threads
    requires IsRun(Start(maxDepth, threads, all, loader), es) && IsBehavedRun(Start(maxDepth, threads, all, loader), es)
    ensures var s := After(Start(maxDepth, threads, all, loader), es);
            Circulates(s, all) && InOrder(s) && NoLostWakeUp(s)
  {
    var s := Start(maxDepth, threads, all, loader);
    assert s.holder.Keys == all;
    assert Circulates(s, all);
    RunKeepsCirculation(s, es, all);
    RunKeepsQueue(s, es);
  }

  /* ---- the queues, changed in place by the critical sections ---- */

  class BufferQueue {
    const maxDepth: nat
    var consumerQueue: seq<Buffer>
    var producerQueue: seq<Buffer>

    // The queues are those of s.
    ghost predicate Shows(s: State)
      reads this
    {
      s.maxDepth == maxDepth && s.consumerQueue == consumerQueue && s.producerQueue == producerQueue
    }

    constructor (queueSize: nat)
      ensures maxDepth == queueSize && consumerQueue == [] && producerQueue == []
    {
      maxDepth, consumerQueue, producerQueue := queueSize, [], [];
    }

    // Each method is one pass of thread t through the critical section: the predicate of the wait
    // is evaluated and, if it holds, the queue is changed as in the step of the machine.
    method Queue(req: Buffer, ghost s: State, ghost t: Thread) returns (passed: bool)
      requires Shows(s)
      modifies this`consumerQueue
      ensures passed == MayGo(s, Op.Queue(req))
      ensures if passed then Shows(Perform(s, t, Op.Queue(req))) else Shows(s)
    {
      passed := !IsConsumerQueueFull();
      if passed {
        consumerQueue := consumerQueue + [req];
      }
    }

    method Acquire(ghost s: State, ghost t: Thread) returns (passed: bool, req: Buffer)
      requires Shows(s)
      modifies this`producerQueue
      ensures passed == MayGo(s, Op.Acquire)
      ensures if passed then Shows(Perform(s, t, Op.Acquire)) else Shows(s)
      ensures passed ==> Perform(s, t, Op.Acquire).holder == s.holder[req := Producer(t)]
      ensures passed ==> Perform(s, t, Op.Acquire).acquired == s.acquired + [req]
    {
      passed, req := |producerQueue| != 0, 0;
      if passed {
        req := producerQueue[0];
        producerQueue := producerQueue[1..];
      }
    }

    // The timed form is the same pass; it differs in what happens when the predicate is false.
    method Consume(ghost s: State, ghost t: Thread) returns (passed: bool, req: Buffer)
      requires Shows(s)
      modifies this`consumerQueue
      ensures passed == MayGo(s, Op.Consume) == MayGo(s, TimedConsume)
      ensures if passed then Shows(Perform(s, t, Op.Consume)) else Shows(s)
      ensures passed ==> Perform(s, t, Op.Consume).consumed == s.consumed + [req]
      ensures passed ==> Perform(s, t, Op.Consume) == Perform(s, t, TimedConsume)
    {
      passed, req := |consumerQueue| != 0, 0;
      if passed {
        req := consumerQueue[0];
        consumerQueue := consumerQueue[1..];
      }
    }

    method Release(req: Buffer, ghost s: State, ghost t: Thread) returns (passed: bool)
      requires Shows(s)
      modifies this`producerQueue
      ensures passed == MayGo(s, Op.Release(req))
      ensures if passed then Shows(Perform(s, t, Op.Release(req))) else Shows(s)
    {
      passed := !IsProducerQueueFull();
      if passed {
        producerQueue := producerQueue + [req];
      }
    }

    predicate IsConsumerQueueFull()
      reads this
    {
      |consumerQueue| >= maxDepth
    }

    predicate IsProducerQueueFull()
      reads this
    {
      |producerQueue| >= maxDepth
    }
  }
}
