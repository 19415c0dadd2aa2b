/** The pool and its throttle side by side. They keep two rings and two ideas of the last read
    position; `clearToLastRead` cuts each by its own. Every operation on both changes them one after
    the other, under different mutexes, so it is two steps here. */
module Lockstep {
  import opened Chunks
  import PoolWindow
  import opened ThrottleMachine

  // What the consumer thread has done to the pool and not yet to the throttle.
  datatype Consumer = Free | Cutting | Clearing

  // periods[i] is the time period that was registered for chunk i of the stream. The producer owes
  // the pool a chunk when it has registered its period already.
  datatype Coupled = Coupled(
    pool: PoolWindow.Pool,
    throttle: State,
    periods: seq<nat>,
    owed: bool,
    consumer: Consumer)

  // A read is one step up to its call of `wait`: it copies under the mutex of the appending step,
  // and of the positions that it sets for each chunk the throttle keeps the last.
  datatype Step =
    | Register(lap: nat)
    | Append(chunk: Chunk, last: bool, lastSize: nat)
    | Read(q: PoolWindow.Request)
    | CutPool
    | ClearPool
    | FinishThrottle
    | Throttle(e: Event)   // a step inside the throttle

  predicate Sound(c: Coupled) {
    && PoolWindow.Valid(c.pool) && Valid(c.throttle)
    && |c.periods| == |c.pool.stream| + (if c.owed then 1 else 0)
    && (!c.consumer.Free? ==> c.throttle.reader.Outside?)
  }

  predicate IsInternal(e: Event) {
    !e.Push? && !e.SetPosition? && !e.CallWait? && !e.Clear? && !e.ClearToLastRead?
  }

  // The consumer thread is between two calls.
  predicate ConsumerIsIdle(c: Coupled) {
    c.consumer.Free? && c.throttle.reader.Outside?
  }

  predicate CanStep(c: Coupled, s: Step) {
    match s
    case Register(_) => !c.owed && c.throttle.producer.Ready?
    case Append(_, _, _) => c.owed && c.throttle.producer.Ready? && c.consumer.Free?
    case Read(q) =>
      ConsumerIsIdle(c) && PoolWindow.Size(c.pool) > 0 && PoolWindow.Padded(q) && PoolWindow.InWindow(c.pool, q)
    case CutPool => ConsumerIsIdle(c)
    case ClearPool => ConsumerIsIdle(c)
    case FinishThrottle => !c.consumer.Free?
    case Throttle(e) => IsInternal(e) && Enabled(c.throttle, e)
  }

  function Called(t: State, position: nat, sets: bool): (u: State)
    requires Valid(t) && t.reader.Outside?
    ensures Valid(u)
  {
    Next(if sets then Next(t, SetPosition(position)) else t, CallWait)
  }

  // The consumer's call, completed.
  function Finished(c: Coupled): State {
    match c.consumer
    case Free => c.throttle
    case Cutting => Truncated(c.throttle)
    case Clearing => Cleared(c.throttle)
  }

  // A pool that is empty returns before it reaches the throttle.
  function Stepped(c: Coupled, s: Step): (d: Coupled)
    requires Sound(c) && CanStep(c, s)
    ensures Sound(d)
  {
    match s
    case Register(lap) =>
      c.(throttle := ThrottleMachine.Register(c.throttle, lap), periods := c.periods + [Registered(lap)], owed := true)
    case Append(chunk, last, lastSize) => c.(pool := PoolWindow.Pushed(c.pool, chunk, last, lastSize), owed := false)
    case Read(q) =>
      var pool := PoolWindow.AfterRead(c.pool, q);
      c.(pool := pool, throttle := Called(c.throttle, pool.lastRead, 0 < q.length))
    case CutPool =>
      var pool := PoolWindow.Truncated(c.pool);
      if PoolWindow.Size(c.pool) == 0 then c
      else c.(pool := pool, periods := c.periods[..|pool.stream|] + c.periods[|c.pool.stream|..], consumer := Cutting)
    case ClearPool =>
      c.(pool := PoolWindow.Cleared(c.pool), periods := c.periods[|c.pool.stream|..], consumer := Clearing)
    case FinishThrottle => c.(throttle := Finished(c), consumer := Free)
    case Throttle(e) => c.(throttle := Next(c.throttle, e))
  }

  // The throttle remembers the read position of the pool, in whichever field matters next.
  predicate SamePosition(t: State, lastRead: nat) {
    if t.reader.Outside? || t.reader.LiveStop? then t.mem.lastPos == lastRead else t.mem.pos == lastRead
  }

  // The chunk whose period is the oldest that the throttle should hold.
  function FirstPeriod(c: Coupled): nat {
    if c.owed && PoolWindow.Full(c.pool) then c.pool.base + 1 else c.pool.base
  }

  /** Both sides hold the same stretch of the stream, the throttle one chunk ahead while the pool is
      owed one, and agree on the last read position: at once, or when the call of the consumer has
      reached the throttle too. */
  predicate InLockstep(c: Coupled) {
    && Sound(c)
    && c.pool.capacity == c.throttle.mem.capacity
    && FirstPeriod(c) <= |c.periods|
    && Finished(c).mem.periods == c.periods[FirstPeriod(c)..]
    && SamePosition(Finished(c), c.pool.lastRead)
  }

  // A period is registered that rotates the ring underneath a position that `wait` has yet to keep.
  predicate RotatesInsideWait(t: State) {
    Full(t) && !t.reader.Outside? && !t.reader.LiveStop? && t.mem.pos > 0
  }

  // `clearToLastRead` would cut the youngest period off.
  predicate CutsPeriods(m: Memory) {
    m.lastPos + 1 < |m.periods|
  }

  /** The steps that part the two: a rotation inside `wait` off the oldest chunk; the consumer's
      cut or clear between the two halves of a push, or a push between the two halves of those,
      when it costs the throttle the new period; a clear that leaves the pool with a read position;
      and an empty read, which has `wait` keep a position that the ring has moved. */
  predicate Parts(c: Coupled, s: Step)
    requires Sound(c) && CanStep(c, s)
  {
    match s
    case Register(lap) =>
      || RotatesInsideWait(c.throttle)
      || c.consumer.Clearing?
      || (c.consumer.Cutting? && CutsPeriods(ThrottleMachine.Register(c.throttle, lap).mem))
    case CutPool => c.owed && PoolWindow.Size(c.pool) > 0 && CutsPeriods(c.throttle.mem)
    case ClearPool => c.owed || c.pool.lastRead != 0
    case Read(q) => q.length == 0 && c.throttle.mem.pos != c.pool.lastRead
    case _ => false
  }

  lemma RegisterPartsExactly(c: Coupled, lap: nat)
    requires InLockstep(c) && CanStep(c, Register(lap))
    ensures InLockstep(Stepped(c, Register(lap))) <==> !Parts(c, Register(lap))
  {
    match c.consumer {
      case Free => RegisterPartsFree(c, lap);
      case Cutting => RegisterPartsCutting(c, lap);
      case Clearing => RegisterPartsClearing(c, lap);
    }
  }

  lemma RegisterPartsFree(c: Coupled, lap: nat)
    requires InLockstep(c) && CanStep(c, Register(lap)) && c.consumer.Free?
    ensures InLockstep(Stepped(c, Register(lap))) <==> !RotatesInsideWait(c.throttle)
  {
    var d := Stepped(c, Register(lap));
    assert d.throttle.mem.periods == d.periods[FirstPeriod(d)..];
  }

  lemma RegisterPartsCutting(c: Coupled, lap: nat)
    requires InLockstep(c) && CanStep(c, Register(lap)) && c.consumer.Cutting?
    ensures InLockstep(Stepped(c, Register(lap)))
      <==> !CutsPeriods(ThrottleMachine.Register(c.throttle, lap).mem)
  {
    var d := Stepped(c, Register(lap));
    if CutsPeriods(d.throttle.mem) {
      assert |Finished(d).mem.periods| == PoolWindow.Size(c.pool);
      assert |d.periods| - FirstPeriod(d) == PoolWindow.Size(c.pool) + 1;
    } else {
      assert Finished(d).mem.periods == d.throttle.mem.periods;
      assert d.throttle.mem.periods == d.periods[FirstPeriod(d)..];
    }
  }

  lemma RegisterPartsClearing(c: Coupled, lap: nat)
    requires InLockstep(c) && CanStep(c, Register(lap)) && c.consumer.Clearing?
    ensures !InLockstep(Stepped(c, Register(lap)))
  {
    var d := Stepped(c, Register(lap));
    assert Finished(d).mem.periods == [] && |d.periods| - FirstPeriod(d) == 1;
  }

  lemma AppendKeepsLockstep(c: Coupled, s: Step)
    requires s.Append? && InLockstep(c) && CanStep(c, s)
    ensures InLockstep(Stepped(c, s))
  {
  }

  lemma ReadPartsExactly(c: Coupled, q: PoolWindow.Request)
    requires InLockstep(c) && CanStep(c, Read(q))
    ensures InLockstep(Stepped(c, Read(q))) <==> !Parts(c, Read(q))
  {
  }

  lemma CutKeepsLockstep(c: Coupled)
    requires InLockstep(c) && CanStep(c, CutPool) && !c.owed
    ensures InLockstep(Stepped(c, CutPool))
  {
  }

  lemma OwingCutPartsExactly(c: Coupled)
    requires InLockstep(c) && CanStep(c, CutPool) && c.owed
    ensures InLockstep(Stepped(c, CutPool)) <==> !Parts(c, CutPool)
  {
    var d := Stepped(c, CutPool);
    if PoolWindow.Size(c.pool) == 0 {
    } else if Parts(c, CutPool) {
      assert |Finished(d).mem.periods| == c.pool.lastRead + 1;
      assert |d.periods| - FirstPeriod(d) > c.pool.lastRead + 1;
    } else {
      assert d.pool.stream == c.pool.stream && d.periods == c.periods;
      assert Finished(d).mem.periods == c.throttle.mem.periods;
    }
  }

  lemma ClearPartsExactly(c: Coupled)
    requires InLockstep(c) && CanStep(c, ClearPool)
    ensures InLockstep(Stepped(c, ClearPool)) <==> !Parts(c, ClearPool)
  {
  }

  lemma InternalStepFrame(s: State, e: Event)
    requires Valid(s) && Enabled(s, e) && IsInternal(e)
    ensures var t := Next(s, e);
            && t.mem.periods == s.mem.periods && t.mem.pos == s.mem.pos
            && (s.reader.Outside? ==> t.reader.Outside? && t.mem.lastPos == s.mem.lastPos)
            && forall position | SamePosition(s, position) :: SamePosition(t, position)
  {
    match e {
      case ReaderRuns =>
      case LoopRuns => assert Next(s, e).reader == s.reader || (s.reader.CvParked? && Next(s, e).reader.CvTest?);
      case _ =>
    }
  }

  lemma ThrottleKeepsLockstep(c: Coupled, e: Event)
    requires InLockstep(c) && CanStep(c, Throttle(e))
    ensures InLockstep(Stepped(c, Throttle(e)))
  {
    InternalStepFrame(c.throttle, e);
  }

  /** A step parts pool and throttle if and only if it is one of those. */
  lemma StepPartsExactly(c: Coupled, s: Step)
    requires InLockstep(c) && CanStep(c, s)
    ensures InLockstep(Stepped(c, s)) <==> !Parts(c, s)
  {
    match s {
      case Register(lap) => RegisterPartsExactly(c, lap);
      case Append(_, _, _) => AppendKeepsLockstep(c, s);
      case Read(q) => ReadPartsExactly(c, q);
      case CutPool =>
        if c.owed { OwingCutPartsExactly(c); } else { CutKeepsLockstep(c); }
      case ClearPool => ClearPartsExactly(c);
      case FinishThrottle =>
      case Throttle(e) => ThrottleKeepsLockstep(c, e);
    }
  }

  predicate IsWholeRun(c: Coupled, ss: seq<Step>)
    requires Sound(c)
    decreases |ss|
  {
    ss == [] || (CanStep(c, ss[0]) && !Parts(c, ss[0]) && IsWholeRun(Stepped(c, ss[0]), ss[1..]))
  }

  function AfterRun(c: Coupled, ss: seq<Step>): Coupled
    requires Sound(c) && IsWholeRun(c, ss)
    decreases |ss|
  {
    if ss == [] then c else AfterRun(Stepped(c, ss[0]), ss[1..])
  }

  /** So along every run without such a step the two rings hold the chunks and the periods of the
      same stretch of the stream, and both sides agree on the last read position; so every
      `clearToLastRead` cuts the same entries from both. */
  lemma {:induction false} RunKeepsLockstep(c: Coupled, ss: seq<Step>)
    requires InLockstep(c) && IsWholeRun(c, ss)
    ensures InLockstep(AfterRun(c, ss))
    decreases |ss|
  {
    if ss != [] {
      StepPartsExactly(c, ss[0]);
      RunKeepsLockstep(Stepped(c, ss[0]), ss[1..]);
    }
  }

  function Start(capacity: nat): (c: Coupled)
    requires 0 < capacity
    ensures InLockstep(c)
  {
    Coupled(PoolWindow.Initial(capacity), Initial(capacity), [], false, Free)
  }

  /** The next read of a chunk restores agreement on the position, whatever was amiss with it. */
  lemma ReadRestoresLockstep(c: Coupled, q: PoolWindow.Request, position: nat)
    requires InLockstep(c.(pool := c.pool.(lastRead := position))) && CanStep(c, Read(q)) && 0 < q.length
    ensures InLockstep(Stepped(c, Read(q)))
  {
  }

  /* ---- runs that part them ---- */

  // A push that nothing interrupts.
  function PushedWhole(c: Coupled, chunk: Chunk): (d: Coupled)
    requires Sound(c) && CanStep(c, Register(0)) && c.consumer.Free?
    ensures Sound(d)
  {
    Stepped(Stepped(Stepped(c, Register(0)), Throttle(PushNotify)), Append(chunk, false, 0))
  }

  // Two chunks in rings of two, and a read of the second up to its call of `wait`.
  function ReadingSecond(chunk: Chunk): (c: Coupled)
    ensures Sound(c)
  {
    Stepped(PushedWhole(PushedWhole(Start(2), chunk), chunk), Read(PoolWindow.Request(1, 1, 0, 0)))
  }

  /** The third push rotates the throttle's ring inside that `wait`. */
  lemma RotationInsideWaitParts(chunk: Chunk)
    ensures var c := ReadingSecond(chunk);
            InLockstep(c) && CanStep(c, Register(0)) && !InLockstep(Stepped(c, Register(0)))
  {
    StepPartsExactly(ReadingSecond(chunk), Register(0));
  }

  // A live call of `wait` from its first test to its return.
  function ReturnedLive(c: Coupled): (d: Coupled)
    requires Sound(c) && c.throttle.reader.LiveTest? && IsLive(c.throttle)
    ensures Sound(d)
  {
    var run := Throttle(ReaderRuns);
    Stepped(Stepped(Stepped(c, run), run), run)
  }

  lemma ReturnedLiveFrame(c: Coupled)
    requires InLockstep(c) && c.throttle.reader.LiveTest? && IsLive(c.throttle)
    ensures var d := ReturnedLive(c);
            && InLockstep(d) && ConsumerIsIdle(d)
            && d.pool == c.pool && d.owed == c.owed && d.throttle.producer == c.throttle.producer
            && d.throttle.mem.periods == c.throttle.mem.periods && d.throttle.mem.pos == c.throttle.mem.pos
  {
    var run := Throttle(ReaderRuns);
    StepPartsExactly(c, run);
    StepPartsExactly(Stepped(c, run), run);
    StepPartsExactly(Stepped(Stepped(c, run), run), run);
  }

  // The same read, returned at the live position.
  function ReadSecond(chunk: Chunk): (c: Coupled)
    ensures Sound(c)
  {
    ReturnedLive(ReadingSecond(chunk))
  }

  lemma ReadSecondFrame(chunk: Chunk)
    ensures var c := ReadSecond(chunk);
            && InLockstep(c) && ConsumerIsIdle(c) && CanStep(c, Register(0)) && Full(c.throttle)
            && c.pool.lastRead == 1 && c.throttle.mem.pos == 1 && PoolWindow.Size(c.pool) == 2
  {
    ReturnedLiveFrame(ReadingSecond(chunk));
  }

  /** A clear after it leaves the pool at location 1 and the throttle at 0. */
  lemma ClearAfterReadParts(chunk: Chunk)
    ensures var c := ReadSecond(chunk);
            InLockstep(c) && CanStep(c, ClearPool) && !InLockstep(Stepped(c, ClearPool))
  {
    ReadSecondFrame(chunk);
    StepPartsExactly(ReadSecond(chunk), ClearPool);
  }

  // The same read, and a third push after it, which rotates both rings.
  function RotatedAfterRead(chunk: Chunk): (c: Coupled)
    ensures Sound(c)
  {
    PushedWhole(ReadSecond(chunk), chunk)
  }

  lemma RotatedAfterReadFrame(chunk: Chunk)
    ensures var c := RotatedAfterRead(chunk);
            && InLockstep(c) && ConsumerIsIdle(c)
            && PoolWindow.Size(c.pool) == 2 && c.pool.lastRead == 1 && c.throttle.mem.pos == 0
  {
    ReadSecondFrame(chunk);
    PushedWholeFrame(ReadSecond(chunk), chunk);
  }

  lemma PushedWholeFrame(c: Coupled, chunk: Chunk)
    requires InLockstep(c) && CanStep(c, Register(0)) && ConsumerIsIdle(c)
    ensures var d := PushedWhole(c, chunk);
            && InLockstep(d) && ConsumerIsIdle(d)
            && d.pool == PoolWindow.Pushed(c.pool, chunk, false, 0)
            && d.throttle.mem.pos == if Full(c.throttle) then Lowered(c.throttle.mem.pos) else c.throttle.mem.pos
  {
    var registered := Stepped(c, Register(0));
    StepPartsExactly(c, Register(0));
    StepPartsExactly(registered, Throttle(PushNotify));
    StepPartsExactly(Stepped(registered, Throttle(PushNotify)), Append(chunk, false, 0));
  }

  /** An empty read then has `wait` keep the position of the throttle, which the rotation has moved
      from 1 to 0, and the pool stays at 1. */
  lemma EmptyReadParts(chunk: Chunk)
    ensures var c, q := RotatedAfterRead(chunk), PoolWindow.Request(0, 1, 0, 0);
            InLockstep(c) && CanStep(c, Read(q)) && !InLockstep(Stepped(c, Read(q)))
  {
    RotatedAfterReadFrame(chunk);
    MovedPositionParts(RotatedAfterRead(chunk), PoolWindow.Request(0, 1, 0, 0));
  }

  lemma MovedPositionParts(c: Coupled, q: PoolWindow.Request)
    requires InLockstep(c) && ConsumerIsIdle(c) && PoolWindow.Size(c.pool) > 0
    requires q.length == 0 && PoolWindow.Padded(q) && c.throttle.mem.pos != c.pool.lastRead
    ensures CanStep(c, Read(q)) && !InLockstep(Stepped(c, Read(q)))
  {
    StepPartsExactly(c, Read(q));
  }

  // One chunk in rings of four, the period of the next one registered.
  function PushingSecond(chunk: Chunk): (c: Coupled)
    ensures Sound(c)
  {
    Stepped(Stepped(PushedWhole(Start(4), chunk), Register(0)), Throttle(PushNotify))
  }

  // The push, completed after a `clearToLastRead` at that point.
  function PushedAroundCut(chunk: Chunk): (c: Coupled)
    ensures Sound(c)
  {
    var cut := Stepped(PushingSecond(chunk), CutPool);
    var finished := Stepped(cut, FinishThrottle);
    Stepped(finished, Append(chunk, false, 0))
  }

  /** Neither ring is full and no reader inside `wait`, and yet that leaves the pool with two chunks
      and the throttle with one period. */
  lemma CutInsidePushParts(chunk: Chunk)
    ensures var c := PushingSecond(chunk);
            InLockstep(c) && CanStep(c, CutPool) && !InLockstep(Stepped(c, CutPool))
    ensures var c := PushedAroundCut(chunk);
            PoolWindow.Size(c.pool) == 2 && |c.throttle.mem.periods| == 1
  {
    StepPartsExactly(PushingSecond(chunk), CutPool);
  }
}
